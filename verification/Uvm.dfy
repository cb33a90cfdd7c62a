/** Whole address spaces: setting one up, growing it, copying it and taking it down. */
module Uvm {

  import opened Bytes
  import opened PageTables
  import opened Kalloc
  import opened VmRoom
  import opened VmSteps
  import opened Vm

  // ---- freevm ----

  ghost predicate GoneAt(owner: Owners, owner': Owners, d: nat, f: nat)
  {
    f in owner && f in owner' ==> owner'[f] == Gone(owner[f], d, f)
  }

  // Exactly the frames of d have become free.
  ghost predicate AllGone(owner: Owners, owner': Owners, d: nat)
  {
    owner.Keys == owner'.Keys && forall f: nat {:trigger GoneAt(owner, owner', d, f)} :: GoneAt(owner, owner', d, f)
  }

  // The first n tables of d are free.
  ghost predicate TablesFreedAt(owner: Owners, owner': Owners, d: nat, n: nat, f: nat)
  {
    f in owner && f in owner' ==>
      owner'[f] == if owner[f].Table? && owner[f].dir == d && owner[f].index < n then Free else owner[f]
  }

  ghost predicate InUseKept(mem: Mem, owner': Owners, mem': Mem, f: nat)
  {
    f in owner' && !owner'[f].Free? ==> f in mem && f in mem' && mem'[f] == mem[f]
  }

  ghost predicate TablesFreed(mem: Mem, owner: Owners, mem': Mem, owner': Owners, d: nat, n: nat)
  {
    && owner.Keys == owner'.Keys == mem.Keys == mem'.Keys
    && (forall f: nat {:trigger TablesFreedAt(owner, owner', d, n, f)} :: TablesFreedAt(owner, owner', d, n, f))
    && (forall f: nat {:trigger InUseKept(mem, owner', mem', f)} :: InUseKept(mem, owner', mem', f))
  }

  lemma NextTableFreed(mem: Mem, owner: Owners, mem1: Mem, owner1: Owners, mem2: Mem, owner2: Owners, d: nat, n: nat)
    requires Wf(mem, owner) && IsDir(owner, d) && n < ENTRIES && TablesFreed(mem, owner, mem1, owner1, d, n)
    requires if TableAt(mem, d, n).Some?
             then TableAt(mem, d, n).value in mem1 && TableAt(mem, d, n).value in mem2
                  && owner2 == owner1[TableAt(mem, d, n).value := Free]
                  && mem2 == mem1[TableAt(mem, d, n).value := mem2[TableAt(mem, d, n).value]]
             else mem2 == mem1 && owner2 == owner1
    ensures TablesFreed(mem, owner, mem2, owner2, d, n + 1)
  {
    hide Lookup;
    hide TableAt;
    assert TableOk(mem, owner, d, n);
    var n' := n + 1;
    forall f: nat ensures TablesFreedAt(owner, owner2, d, n', f) {
      assert TablesFreedAt(owner, owner1, d, n, f) && OwnedOk(mem, owner, f);
    }
    forall f: nat ensures InUseKept(mem, owner2, mem2, f) {
      assert InUseKept(mem, owner1, mem1, f);
    }
    assert owner.Keys == owner2.Keys;
  }

  // With its pages, its tables and itself free, nothing is left of d.
  lemma DirGone(mem: Mem, owner: Owners, mem1: Mem, owner1: Owners, mem2: Mem, owner2: Owners, mem3: Mem,
                owner3: Owners, d: nat)
    requires Wf(mem, owner) && IsDir(owner, d)
    requires Wf(mem1, owner1) && Dropped(mem, owner, mem1, owner1, d, 0, UPAGES)
    requires TablesFreed(mem1, owner1, mem2, owner2, d, ENTRIES)
    requires d in mem3 && owner3 == owner2[d := Free] && mem3 == mem2[d := mem3[d]]
    ensures Wf(mem3, owner3) && AllGone(owner, owner3, d) && Shrunk(mem, owner, mem3, owner3, d)
  {
    hide Lookup;
    hide TableAt;
    DroppedDir(mem, owner, mem1, owner1, d, 0, UPAGES);
    assert owner3.Keys == owner1.Keys && mem3.Keys == mem1.Keys;
    forall f: nat ensures StripAt(owner1, owner3, d, f) && GaveAt(owner1, owner3, d, f) {
      assert TablesFreedAt(owner1, owner2, d, ENTRIES, f) && OwnedOk(mem1, owner1, f);
    }
    forall f: nat ensures GoneAt(owner, owner3, d, f) {
      assert StripAt(owner1, owner3, d, f) && OwnedOk(mem, owner, f);
      assert ReleasedAt(owner, owner1, d, 0, UPAGES, f);
    }
    forall f: nat ensures TableKept(owner3, mem1, mem3, f) && KeptAt(mem1, owner3, mem3, f) {
      assert InUseKept(mem1, owner2, mem2, f);
    }
    PagesGone(mem, owner, mem1, owner1, d);
    DropDir(mem1, owner1, d, mem3, owner3);
    forall d': nat, u: nat ensures ViewAt(mem1, owner1, mem3, d, d', u) {
      if IsDir(owner1, d') && d' != d {
        StripLookup(mem1, owner1, d, mem3, owner3, d', u);
      }
    }
    ShrunkTrans(mem, owner, mem1, owner1, mem3, owner3, d);
  }

  lemma PagesGone(mem: Mem, owner: Owners, mem1: Mem, owner1: Owners, d: nat)
    requires Wf(mem, owner) && Dropped(mem, owner, mem1, owner1, d, 0, UPAGES)
    ensures forall f: nat {:trigger owner1[f]} :: f in owner1 && owner1[f].Page? ==> owner1[f].dir != d
  {
    forall f: nat | f in owner1 && owner1[f].Page? ensures owner1[f].dir != d {
      assert ReleasedAt(owner, owner1, d, 0, UPAGES, f) && OwnedOk(mem, owner, f);
    }
  }

  method FreeVm(m: Memory, d: nat)
    requires m.Valid() && IsDir(m.owner, d)
    modifies m
    ensures m.Valid() && AllGone(old(m.owner), m.owner, d)
    ensures Shrunk(old(m.mem), old(m.owner), m.mem, m.owner, d)
  {
    hide Wf;
    hide ListOk;
    hide Lookup;
    hide Dropped;
    hide Shrunk;
    hide AllGone;
    hide TablesFreed;
    hide Pn;
    hide Present;
    ghost var mem0, owner0 := m.mem, m.owner;
    var sz := DeallocUvm(m, d, KERNBASE, 0);
    ghost var mem1, owner1 := m.mem, m.owner;
    assert RoundUp(0) == 0 && RoundUp(KERNBASE) == UPAGES;
    WfKeys(mem1, owner1);
    NoneFreed(mem1, owner1, d);
    var i := 0;
    while i < ENTRIES
      invariant 0 <= i <= ENTRIES && m.Listing() && TablesFreed(mem1, owner1, m.mem, m.owner, d, i)
    {
      TableStill(mem1, owner1, m.mem, m.owner, d, i);
      ghost var mem2, owner2 := m.mem, m.owner;
      if Present(m.mem[d][i]) {
        var t := Pn(m.mem[d][i]);
        FrameRange(m.end, m.mem, m.owner, m.list, m.freelist, t);
        PageFreeable(m.end, t);
        var halted := m.Kfree(P2V(t));
      }
      NextTableFreed(mem1, owner1, mem2, owner2, m.mem, m.owner, d, i);
      i := i + 1;
    }
    TableStill(mem1, owner1, m.mem, m.owner, d, ENTRIES);
    ghost var mem2, owner2 := m.mem, m.owner;
    FrameRange(m.end, m.mem, m.owner, m.list, m.freelist, d);
    PageFreeable(m.end, d);
    var halted := m.Kfree(P2V(d));
    DirGone(mem0, owner0, mem1, owner1, mem2, owner2, m.mem, m.owner, d);
  }

  lemma NoneFreed(mem: Mem, owner: Owners, d: nat)
    requires mem.Keys == owner.Keys
    ensures TablesFreed(mem, owner, mem, owner, d, 0)
  {
  }

  // The directory still reads as it did, and table n is still there to be freed.
  lemma TableStill(mem: Mem, owner: Owners, mem1: Mem, owner1: Owners, d: nat, n: nat)
    requires Wf(mem, owner) && IsDir(owner, d) && n <= ENTRIES && TablesFreed(mem, owner, mem1, owner1, d, n)
    ensures d in mem && d in mem1 && mem1[d] == mem[d] && d in owner1 && !owner1[d].Free?
    ensures TableAt(mem, d, n).Some? ==> TableAt(mem, d, n).value in owner1 && !owner1[TableAt(mem, d, n).value].Free?
  {
    assert TableOk(mem, owner, d, n) && InUseKept(mem, owner1, mem1, d);
    assert TablesFreedAt(owner, owner1, d, n, d);
    if TableAt(mem, d, n).Some? {
      assert TablesFreedAt(owner, owner1, d, n, TableAt(mem, d, n).value);
    }
  }

  // ---- setupkvm ----

  const EXTMEM: nat := 0x10_0000
  const DEVSPACE: nat := 0xFE00_0000

  datatype Kmap = Kmap(virt: uint, physStart: uint, physEnd: uint, perm: nat)

  // The table of kernel mappings; page pd of physical memory is where the kernel's data starts.
  function KmapAt(pd: nat, k: nat): Kmap
    requires EXTMEM < PGSIZE * pd < PHYSTOP
  {
    if k == 0 then Kmap(KERNBASE, 0, EXTMEM, PTE_W)
    else if k == 1 then Kmap(KERNBASE + EXTMEM, EXTMEM, PGSIZE * pd, 0)
    else if k == 2 then Kmap(KERNBASE + PGSIZE * pd, PGSIZE * pd, PHYSTOP, PTE_W)
    else Kmap(DEVSPACE, DEVSPACE, 0, PTE_W)
  }

  // Where the kernel part leads: memory from KERNBASE up, read-only below data, and devices in place.
  function KernelMap(pd: nat, u: nat): Option<uint>
    requires EXTMEM < PGSIZE * pd < PHYSTOP
  {
    if UPAGES <= u < UPAGES + TOP then
      Some(Entry(u - UPAGES, if EXTMEM <= PGSIZE * (u - UPAGES) && u - UPAGES < pd then 0 else PTE_W))
    else if DEVSPACE <= PGSIZE * u && u < PAGES then Some(Entry(u, PTE_W))
    else None
  }

  // First page of the k-th mapping.
  function Bound(pd: nat, k: nat): nat
  {
    if k == 0 then UPAGES
    else if k == 1 then UPAGES + 0x100
    else if k == 2 then UPAGES + pd
    else if k == 3 then 0xFE000
    else PAGES
  }

  ghost predicate KernelAt(mem: Mem, d: nat, pd: nat, to: nat, u: nat)
    requires EXTMEM < PGSIZE * pd < PHYSTOP
  {
    Lookup(mem, d, u) == if u < to then KernelMap(pd, u) else None
  }

  // The kernel mappings below page `to`, and nothing else.
  ghost predicate KernelTo(mem: Mem, d: nat, pd: nat, to: nat)
    requires EXTMEM < PGSIZE * pd < PHYSTOP
  {
    forall u: nat {:trigger KernelAt(mem, d, pd, to, u)} :: KernelAt(mem, d, pd, to, u)
  }

  lemma KernelMore(mem: Mem, mem': Mem, d: nat, pd: nat, k: nat)
    requires EXTMEM < PGSIZE * pd < PHYSTOP && k < 4 && KernelTo(mem, d, pd, Bound(pd, k))
    requires var e := KmapAt(pd, k); var size := USub(e.physEnd, e.physStart);
      0 < size && MapsRange(mem, mem', d, e.virt / PGSIZE, Last(e.virt, size) + 1, e.physStart / PGSIZE, e.perm)
    ensures KernelTo(mem', d, pd, Bound(pd, k + 1))
  {
    hide Lookup;
    var e, to := KmapAt(pd, k), Bound(pd, k + 1);
    var first, last := e.virt / PGSIZE, Last(e.virt, USub(e.physEnd, e.physStart)) + 1;
    KmapRange(pd, k);
    forall u: nat ensures KernelAt(mem', d, pd, to, u) {
      assert KernelAt(mem, d, pd, Bound(pd, k), u);
      assert MapsAt(mem, mem', d, first, last, e.physStart / PGSIZE, e.perm, u);
    }
  }

  lemma KmapRange(pd: nat, k: nat)
    requires EXTMEM < PGSIZE * pd < PHYSTOP && k < 4
    ensures var e := KmapAt(pd, k); var size := USub(e.physEnd, e.physStart);
      && 0 < size && e.virt + size <= UINT_LIMIT && e.physStart + size <= UINT_LIMIT
      && e.virt % PGSIZE == 0 && e.physStart % PGSIZE == 0 && e.virt >= KERNBASE && e.perm < PGSIZE
      && e.virt / PGSIZE == Bound(pd, k)
      && Last(e.virt, size) + 1 == (if k == 2 then UPAGES + TOP else Bound(pd, k + 1))
      && e.physStart / PGSIZE == (if k < 3 then Bound(pd, k) - UPAGES else Bound(pd, k))
  {
  }

  function USub(a: uint, b: uint): uint { if a >= b then a - b else a - b + UINT_LIMIT }

  lemma NewDir(mem: Mem, owner: Owners, d: nat, mem': Mem, owner': Owners, pd: nat)
    requires EXTMEM < PGSIZE * pd < PHYSTOP && Wf(mem, owner) && d in owner && owner[d].Free?
    requires mem' == mem[d := Fill(ENTRIES, 0)] && owner' == owner[d := Dir]
    ensures Wf(mem', owner') && Grown(mem, owner, mem', owner', d, None) && KernelTo(mem', d, pd, Bound(pd, 0))
  {
    hide Lookup;
    hide Wf;
    WfKeys(mem, owner);
    var owner1 := owner[d := Other];
    IdleView(mem, owner, mem', owner1, d);
    BlankZero(mem', d);
    AddDir(mem', owner1, d, owner');
    forall f: nat ensures DataAt(mem, owner, mem', f) && TookAt(owner, owner', d, f) {
    }
    forall d': nat, u: nat ensures ViewAt(mem, owner, mem', d, d', u) {
    }
    forall u: nat ensures KernelAt(mem', d, pd, UPAGES, u) {
      assert Lookup(mem', d, u).None?;
    }
    assert owner.Keys == owner'.Keys;
  }

  // A directory, 56 tables for the memory below PHYSTOP, and 8 for the devices.
  const KVM_FRAMES: nat := 65

  // Where the first k mappings end, those of memory.
  function MemoryEnd(pd: nat, k: nat): nat
  {
    if k == 0 then UPAGES else if k == 1 then UPAGES + 0x100 else if k == 2 then UPAGES + pd else UPAGES + TOP
  }

  // What the first k mappings have taken, from a directory that was blank in mem0, when there was room
  // for `room0` frames.
  ghost predicate KernelPaid(mem0: Mem, mem: Mem, d: nat, pd: nat, k: nat, room0: int, room: int)
  {
    var end := MemoryEnd(pd, k);
    if k <= 3 then Tabled(mem0, mem, d, UPAGES, end) && room == room0 - 1 - Spanned(UPAGES, end)
    else room == room0 - KVM_FRAMES && NoUserTables(mem, d)
  }

  ghost predicate NoUserTables(mem: Mem, d: nat) { forall i: nat | i < Pdx(UPAGES) :: TableAt(mem, d, i).None? }

  ghost predicate NoTables(mem: Mem, d: nat) { forall i: nat :: TableAt(mem, d, i).None? }

  lemma KernelCosts(mem0: Mem, mem: Mem, d: nat, pd: nat, k: nat, room0: int, room: int)
    requires EXTMEM < PGSIZE * pd < PHYSTOP && k < 4 && NoTables(mem0, d)
    requires KernelPaid(mem0, mem, d, pd, k, room0, room)
    ensures var e := KmapAt(pd, k); var size := USub(e.physEnd, e.physStart);
      && 0 < size
      && Missing(mem, d, e.virt / PGSIZE, Last(e.virt, size) + 1) ==
           (if k < 3 then Spanned(UPAGES, MemoryEnd(pd, k + 1)) - Spanned(UPAGES, MemoryEnd(pd, k)) else 8)
      && Spanned(UPAGES, MemoryEnd(pd, k)) <= Spanned(UPAGES, UPAGES + TOP) == 56
      && (k < 3 ==> Spanned(UPAGES, MemoryEnd(pd, k + 1)) <= 56)
  {
    hide TableAt;
    hide Missing;
    KmapRange(pd, k);
    SpanBounds(pd, k);
    if k < 3 {
      MissingJoin(mem0, mem, d, UPAGES, MemoryEnd(pd, k), MemoryEnd(pd, k + 1));
      MissingAll(mem0, d, UPAGES, MemoryEnd(pd, k));
      MissingAll(mem0, d, UPAGES, MemoryEnd(pd, k + 1));
    } else {
      forall i: nat | InSpan(i, 0xFE000, PAGES) ensures TableAt(mem, d, i).None? {
        assert TabledAt(mem0, mem, d, UPAGES, UPAGES + TOP, i);
      }
      MissingAll(mem, d, 0xFE000, PAGES);
    }
  }

  lemma SpanBounds(pd: nat, k: nat)
    requires EXTMEM < PGSIZE * pd < PHYSTOP && k < 4
    ensures UPAGES <= MemoryEnd(pd, k) <= MemoryEnd(pd, k + 1) <= UPAGES + TOP
    ensures Spanned(UPAGES, MemoryEnd(pd, k)) <= Spanned(UPAGES, UPAGES + TOP) == 56
    ensures Spanned(UPAGES, MemoryEnd(pd, k + 1)) <= 56 && Spanned(0xFE000, PAGES) == 8
  {
  }

  lemma KernelPays(mem0: Mem, mem: Mem, mem': Mem, d: nat, pd: nat, k: nat, room0: int, room: int, room': int)
    requires EXTMEM < PGSIZE * pd < PHYSTOP && k < 4 && NoTables(mem0, d)
    requires KernelPaid(mem0, mem, d, pd, k, room0, room)
    requires var e := KmapAt(pd, k); var size := USub(e.physEnd, e.physStart);
      && 0 < size && Tabled(mem, mem', d, e.virt / PGSIZE, Last(e.virt, size) + 1)
      && room' == room - Missing(mem, d, e.virt / PGSIZE, Last(e.virt, size) + 1)
    ensures KernelPaid(mem0, mem', d, pd, k + 1, room0, room')
  {
    hide TableAt;
    hide Missing;
    KernelCosts(mem0, mem, d, pd, k, room0, room);
    KmapRange(pd, k);
    SpanBounds(pd, k);
    if k < 3 {
      TabledTrans(mem0, mem, mem', d, UPAGES, MemoryEnd(pd, k), MemoryEnd(pd, k + 1));
    } else {
      forall i: nat | i < Pdx(UPAGES) ensures TableAt(mem', d, i).None? {
        assert TabledAt(mem0, mem, d, UPAGES, UPAGES + TOP, i) && TabledAt(mem, mem', d, 0xFE000, PAGES, i);
      }
    }
  }

  // Memory ran out in the k-th mapping.
  lemma KernelShort(mem0: Mem, mem: Mem, d: nat, pd: nat, k: nat, room0: int, room: int, done: nat)
    requires EXTMEM < PGSIZE * pd < PHYSTOP && k < 4 && NoTables(mem0, d)
    requires KernelPaid(mem0, mem, d, pd, k, room0, room)
    requires var e := KmapAt(pd, k); var size := USub(e.physEnd, e.physStart);
      0 < size && done <= Last(e.virt, size) && room < Missing(mem, d, e.virt / PGSIZE, done + 1)
    ensures room0 < KVM_FRAMES
  {
    hide TableAt;
    hide Missing;
    var e := KmapAt(pd, k);
    var size := USub(e.physEnd, e.physStart);
    KernelCosts(mem0, mem, d, pd, k, room0, room);
    MissingGrows(mem, d, e.virt / PGSIZE, done + 1, Last(e.virt, size) + 1);
  }

  lemma BlankPaid(mem: Mem, d: nat, pd: nat, room0: int)
    requires d in mem && mem[d] == Fill(ENTRIES, 0)
    ensures NoTables(mem, d) && KernelPaid(mem, mem, d, pd, 0, room0, room0 - 1)
  {
    TabledNone(mem, mem, d, UPAGES, UPAGES);
  }

  // What was there before is there still, for every directory and every frame in use.
  ghost predicate Undisturbed(mem: Mem, owner: Owners, mem': Mem)
  {
    && (forall f: nat {:trigger DataAt(mem, owner, mem', f)} :: DataAt(mem, owner, mem', f))
    && (forall d: nat, u: nat {:trigger Lookup(mem', d, u)} | IsDir(owner, d) ::
      Lookup(mem', d, u) == Lookup(mem, d, u))
  }

  // A directory made and taken down again leaves nothing behind.
  lemma Undone(mem0: Mem, owner0: Owners, mem1: Mem, owner1: Owners, mem2: Mem, owner2: Owners, d: nat)
    requires Wf(mem0, owner0) && d in owner0 && owner0[d].Free?
    requires Grown(mem0, owner0, mem1, owner1, d, None) && AllGone(owner1, owner2, d)
    requires Shrunk(mem1, owner1, mem2, owner2, d)
    ensures owner2 == owner0 && Undisturbed(mem0, owner0, mem2)
  {
    hide Lookup;
    hide TableAt;
    hide Shrunk;
    forall f: nat | f in owner2 && f in owner1 && f in owner0 && owner2[f] != owner1[f] ensures owner0[f].Free? {
      assert GoneAt(owner1, owner2, d, f) && TookAt(owner0, owner1, d, f) && OwnedOk(mem0, owner0, f);
    }
    GrownShrunk(mem0, owner0, mem1, owner1, mem2, owner2, d, None);
    forall f: nat | f in owner2 ensures !Belongs(owner2[f], d, f) {
      assert GoneAt(owner1, owner2, d, f);
    }
    GrownNothing(mem0, owner0, mem2, owner2, d);
    forall d': nat, u: nat | IsDir(owner0, d') ensures Lookup(mem2, d', u) == Lookup(mem0, d', u) {
      assert ViewAt(mem0, owner0, mem2, d, d', u);
    }
  }

  method SetupKvm(m: Memory, pd: nat) returns (r: Option<nat>)
    requires m.Valid() && EXTMEM < PGSIZE * pd < PHYSTOP
    modifies m
    ensures m.Valid()
    ensures r.None? ==> m.owner == old(m.owner) && Undisturbed(old(m.mem), old(m.owner), m.mem)
    ensures r.Some? ==> r.value in old(m.owner) && old(m.owner)[r.value].Free? && IsDir(m.owner, r.value)
    ensures r.Some? ==> Grown(old(m.mem), old(m.owner), m.mem, m.owner, r.value, None)
    ensures r.Some? ==> KernelTo(m.mem, r.value, pd, PAGES)
    // No user page is mapped, the kernel's are for the kernel only, and its text cannot be written.
    ensures r.Some? ==> forall u | 0 <= u < PAGES && AccessTo(m.mem, r.value, u).Some? ::
              UPAGES <= u && !AccessTo(m.mem, r.value, u).value.user
    ensures r.Some? ==> forall u | 0 <= u < PAGES && AccessTo(m.mem, r.value, u).Some? ::
              AccessTo(m.mem, r.value, u).value.write <==> !(EXTMEM <= PGSIZE * (u - UPAGES) && u - UPAGES < pd)
    ensures r.None? <==> Room(old(m.owner)) < KVM_FRAMES
    ensures r.Some? ==> Room(m.owner) == Room(old(m.owner)) - KVM_FRAMES && NoUserTables(m.mem, r.value)
  {
    hide Room;
    hide Missing;
    hide Tabled;
    hide KernelPaid;
    hide NoTables;
    hide NoUserTables;
    hide AccessTo;
    hide Wf;
    hide ListOk;
    hide Lookup;
    hide Grown;
    hide KernelTo;
    hide MapsRange;
    hide Shrunk;
    hide AllGone;
    hide Undisturbed;
    ghost var mem0, owner0 := m.mem, m.owner;
    NothingDone(mem0, owner0);
    NoRoom(owner0);
    r := m.Kalloc();
    if r.None? {
      return;
    }
    var d := r.value;
    FrameRange(m.end, mem0, m.owner, m.list, m.freelist, d);
    ListKept(FirstPage(m.end), mem0, m.owner, m.list, m.freelist, mem0[d := Fill(ENTRIES, 0)], owner0[d := Dir], d, d);
    m.mem := m.mem[d := Fill(ENTRIES, 0)];
    m.owner := owner0[d := Dir];
    NewDir(mem0, owner0, d, m.mem, m.owner, pd);
    RoomTaken(owner0, d, Dir);
    ghost var blank := m.mem;
    BlankPaid(blank, d, pd, Room(owner0));
    var k := 0;
    while k < 4
      invariant 0 <= k <= 4 && m.Valid() && IsDir(m.owner, d)
      invariant Grown(mem0, owner0, m.mem, m.owner, d, None) && KernelTo(m.mem, d, pd, Bound(pd, k))
      invariant KernelPaid(blank, m.mem, d, pd, k, Room(owner0), Room(m.owner))
    {
      var e := KmapAt(pd, k);
      KmapRange(pd, k);
      ghost var mem1, owner1 := m.mem, m.owner;
      ghost var done;
      var res: MapResult;
      res, done := MapPages(m, d, e.virt, USub(e.physEnd, e.physStart), e.physStart, e.perm);
      NotYet(mem1, d, pd, k, done);
      GrownMore(mem0, owner0, mem1, owner1, m.mem, m.owner, d, None);
      if res.NoMemory? {
        KernelShort(blank, mem1, d, pd, k, Room(owner0), Room(owner1), done);
        ghost var mem2, owner2 := m.mem, m.owner;
        FreeVm(m, d);
        Undone(mem0, owner0, mem2, owner2, m.mem, m.owner, d);
        return None;
      }
      KernelMore(mem1, m.mem, d, pd, k);
      KernelPays(blank, mem1, m.mem, d, pd, k, Room(owner0), Room(owner1), Room(m.owner));
      k := k + 1;
    }
    AllPaid(blank, m.mem, d, pd, Room(owner0), Room(m.owner));
    KernelOnly(m.mem, m.owner, d, pd);
  }

  lemma KernelOnly(mem: Mem, owner: Owners, d: nat, pd: nat)
    requires EXTMEM < PGSIZE * pd < PHYSTOP && Wf(mem, owner) && IsDir(owner, d) && KernelTo(mem, d, pd, PAGES)
    ensures forall u | 0 <= u < PAGES && AccessTo(mem, d, u).Some? ::
              && UPAGES <= u && !AccessTo(mem, d, u).value.user
              && (AccessTo(mem, d, u).value.write <==> !(EXTMEM <= PGSIZE * (u - UPAGES) && u - UPAGES < pd))
  {
    hide Wf;
    hide Lookup;
    hide AccessTo;
    forall u | 0 <= u < PAGES && AccessTo(mem, d, u).Some?
      ensures UPAGES <= u && !AccessTo(mem, d, u).value.user
      ensures AccessTo(mem, d, u).value.write <==> !(EXTMEM <= PGSIZE * (u - UPAGES) && u - UPAGES < pd)
    {
      assert KernelAt(mem, d, pd, PAGES, u);
      AccessIs(mem, owner, d, u);
      FlagBits(Lookup(mem, d, u).value);
    }
  }

  lemma AllPaid(mem0: Mem, mem: Mem, d: nat, pd: nat, room0: int, room: int)
    requires KernelPaid(mem0, mem, d, pd, 4, room0, room)
    ensures room == room0 - KVM_FRAMES && NoUserTables(mem, d)
  {
  }

  lemma NotYet(mem: Mem, d: nat, pd: nat, k: nat, u: nat)
    requires EXTMEM < PGSIZE * pd < PHYSTOP && KernelTo(mem, d, pd, Bound(pd, k))
    ensures Bound(pd, k) <= u ==> Lookup(mem, d, u).None?
  {
    assert KernelAt(mem, d, pd, Bound(pd, k), u);
  }

  lemma NothingDone(mem: Mem, owner: Owners)
    requires Wf(mem, owner)
    ensures Undisturbed(mem, owner, mem)
  {
  }

  // ---- allocuvm ----

  // Page u is writable by the user and on a zeroed frame that was free.
  ghost predicate FreshAt(owner: Owners, mem': Mem, d: nat, u: nat)
  {
    && Lookup(mem', d, u).Some? && Flags(Lookup(mem', d, u).value) == PTE_P + PTE_W + PTE_U
    && Pn(Lookup(mem', d, u).value) in owner && owner[Pn(Lookup(mem', d, u).value)].Free?
    && Pn(Lookup(mem', d, u).value) in mem' && mem'[Pn(Lookup(mem', d, u).value)] == Fill(ENTRIES, 0)
  }

  ghost predicate AllocAt(mem: Mem, owner: Owners, mem': Mem, d: nat, from: nat, to: nat, u: nat)
  {
    if from <= u < to then FreshAt(owner, mem', d, u) else Lookup(mem', d, u) == Lookup(mem, d, u)
  }

  // Pages [from, to) of d are fresh, the others as they were.
  ghost predicate Allocated(mem: Mem, owner: Owners, mem': Mem, d: nat, from: nat, to: nat)
  {
    forall u: nat {:trigger AllocAt(mem, owner, mem', d, from, to, u)} :: AllocAt(mem, owner, mem', d, from, to, u)
  }

  // Distinct pages are on distinct frames.
  lemma OwnFrames(mem: Mem, owner: Owners, d: nat, u: nat, d': nat, v: nat)
    requires Wf(mem, owner) && IsDir(owner, d) && IsDir(owner, d') && u < UPAGES && v < UPAGES
    requires Lookup(mem, d, u).Some? && Lookup(mem, d', v).Some? && (d != d' || u != v)
    ensures Pn(Lookup(mem, d, u).value) != Pn(Lookup(mem, d', v).value)
  {
    PageFrame(mem, owner, d, u);
    PageFrame(mem, owner, d', v);
  }

  ghost predicate Vacant(mem: Mem, d: nat, from: nat, to: nat)
  {
    forall u: nat {:trigger Lookup(mem, d, u)} | from <= u < to :: Lookup(mem, d, u).None?
  }

  // Frame f, zeroed in hand, becomes page v.
  lemma AllocNext(mem0: Mem, owner0: Owners, mem: Mem, owner: Owners, mem1: Mem, owner1: Owners, mem2: Mem,
                  owner2: Owners, d: nat, from: nat, v: nat, f: nat)
    requires Grown(mem0, owner0, mem, owner, d, None) && Allocated(mem0, owner0, mem, d, from, v) && from <= v < UPAGES
    requires Wf(mem, owner) && IsDir(owner, d) && f in owner && owner[f].Free? && f < PAGES
    requires mem1 == mem[f := Fill(ENTRIES, 0)] && owner1 == owner[f := Other]
    requires Grown(mem1, owner1, mem2, owner2, d, Some(f)) && MapsRange(mem1, mem2, d, v, v + 1, f, PTE_W + PTE_U)
    requires f in owner2 && owner2[f] == Page(d, v)
    ensures Grown(mem0, owner0, mem2, owner2, d, None) && Allocated(mem0, owner0, mem2, d, from, v + 1)
  {
    hide Lookup;
    hide Wf;
    TakeHand(mem0, owner0, mem, owner, mem1, owner1, d, f);
    GrownTrans(mem0, owner0, mem1, owner1, mem2, owner2, d, Some(f));
    KeepHand(mem0, owner0, mem2, owner2, d, f);
    IdleView(mem, owner, mem1, owner1, f);
    var to := v + 1;
    forall u: nat ensures AllocAt(mem0, owner0, mem2, d, from, to, u) {
      assert MapsAt(mem1, mem2, d, v, to, f, PTE_W + PTE_U, u) && AllocAt(mem0, owner0, mem, d, from, v, u);
      assert Lookup(mem1, d, u) == Lookup(mem, d, u);
      if u == v {
        assert DataAt(mem1, owner1, mem2, f);
      } else if from <= u < v {
        PageFrame(mem, owner, d, u);
        assert DataAt(mem1, owner1, mem2, Pn(Lookup(mem, d, u).value));
      }
    }
  }

  // Dropping the pages of a vacant range restores the map, whatever was put there.
  lemma AllocUndone(mem0: Mem, owner0: Owners, mem1: Mem, owner1: Owners, mem2: Mem, owner2: Owners, d: nat, from: nat,
                    v: nat, to: nat, hand: Option<nat>)
    requires Wf(mem0, owner0) && IsDir(owner0, d) && Vacant(mem0, d, from, to)
    requires Grown(mem0, owner0, mem1, owner1, d, hand)
    requires Allocated(mem0, owner0, mem1, d, from, v) && v <= to && Dropped(mem1, owner1, mem2, owner2, d, from, to)
    requires hand.Some? ==> hand.value in owner0 && owner0[hand.value].Free?
    ensures Grown(mem0, owner0, mem2, owner2, d, hand) && SameMap(mem0, mem2, d)
  {
    hide Lookup;
    hide TableAt;
    forall f: nat | f in owner2 && f in owner1 && f in owner0 && owner2[f] != owner1[f] ensures owner0[f].Free? {
      assert ReleasedAt(owner1, owner2, d, from, to, f) && OwnedOk(mem0, owner0, f);
      assert hand != Some(f) ==> TookAt(owner0, owner1, d, f);
    }
    GrownShrunk(mem0, owner0, mem1, owner1, mem2, owner2, d, hand);
    forall u: nat ensures Lookup(mem2, d, u) == Lookup(mem0, d, u) {
      assert UnmapsAt(mem1, mem2, d, from, to, u) && AllocAt(mem0, owner0, mem1, d, from, v, u);
    }
  }

  // With the map of d as before, all that d can have gained is tables.
  lemma OnlyTables(mem0: Mem, owner0: Owners, mem1: Mem, owner1: Owners, d: nat, f: nat)
    requires Wf(mem0, owner0) && Wf(mem1, owner1) && IsDir(owner0, d)
    requires Grown(mem0, owner0, mem1, owner1, d, None) && SameMap(mem0, mem1, d)
    ensures f in owner0 && f in owner1 && owner1[f] != owner0[f] ==> owner0[f].Free? && owner1[f].Table?
    ensures f in owner0 && f in owner1 && owner1[f] != owner0[f] ==> owner1[f].dir == d
  {
    hide Lookup;
    hide TableAt;
    assert TookAt(owner0, owner1, d, f) && OwnedOk(mem1, owner1, f);
    if f in owner1 && owner1[f].Page? && owner1[f].dir == d {
      assert PageOk(mem0, owner0, d, owner1[f].page);
      assert Lookup(mem1, d, owner1[f].page) == Lookup(mem0, d, owner1[f].page);
    }
  }

  lemma UserPages(mem0: Mem, owner0: Owners, mem: Mem, owner: Owners, d: nat, from: nat, to: nat)
    requires Wf(mem, owner) && IsDir(owner, d) && Allocated(mem0, owner0, mem, d, from, to)
    ensures forall u | from <= u < to :: AccessTo(mem, d, u) == Some(Access(true, true))
  {
    hide Wf;
    hide Lookup;
    hide AccessTo;
    forall u | from <= u < to ensures AccessTo(mem, d, u) == Some(Access(true, true)) {
      assert AllocAt(mem0, owner0, mem, d, from, to, u);
      AccessIs(mem, owner, d, u);
      FlagBits(Lookup(mem, d, u).value);
    }
  }

  // The frames that it takes to have pages [from, to): the pages, and the tables that are missing.
  ghost function FramesFor(mem: Mem, d: nat, from: nat, to: nat): int
  {
    (if from < to then to - from else 0) + Missing(mem, d, from, to)
  }

  lemma NoFrames(mem: Mem, d: nat, from: nat)
    ensures FramesFor(mem, d, from, from) == 0
  {
  }

  lemma FramesNext(mem0: Mem, mem1: Mem, d: nat, from: nat, a: nat, to: nat)
    requires from <= a < to && Tabled(mem0, mem1, d, from, a)
    ensures FramesFor(mem0, d, from, a + 1) == FramesFor(mem0, d, from, a) + 1 + Missing(mem1, d, a, a + 1)
    ensures FramesFor(mem0, d, from, a + 1) <= FramesFor(mem0, d, from, to)
  {
    hide TableAt;
    hide Missing;
    MissingJoin(mem0, mem1, d, from, a, a + 1);
    MissingGrows(mem0, d, from, a + 1, to);
  }

  method AllocUvm(m: Memory, d: nat, oldsz: uint, newsz: uint) returns (sz: uint, ghost ok: bool)
    requires m.Valid() && IsDir(m.owner, d)
    requires newsz < KERNBASE ==> Vacant(m.mem, d, RoundUp(oldsz), RoundUp(newsz))
    modifies m
    ensures m.Valid() && IsDir(m.owner, d) && Grown(old(m.mem), old(m.owner), m.mem, m.owner, d, None)
    ensures !ok ==> sz == 0 && SameMap(old(m.mem), m.mem, d)
    ensures newsz >= KERNBASE ==> !ok
    ensures newsz >= KERNBASE || newsz < oldsz ==> unchanged(m)
    ensures newsz < KERNBASE && newsz < oldsz ==> ok
    ensures ok ==> sz == (if newsz < oldsz then oldsz else newsz)
    ensures ok ==> Allocated(old(m.mem), old(m.owner), m.mem, d, RoundUp(oldsz), RoundUp(newsz))
    // The user can read and write the new pages.
    ensures ok ==> forall u | RoundUp(oldsz) <= u < RoundUp(newsz) :: AccessTo(m.mem, d, u) == Some(Access(true, true))
    // Otherwise it fails exactly if there are fewer frames than new pages and missing tables.
    ensures oldsz <= newsz < KERNBASE ==>
              (ok <==> Room(old(m.owner)) >= FramesFor(old(m.mem), d, RoundUp(oldsz), RoundUp(newsz)))
    ensures ok && oldsz <= newsz ==>
              Room(m.owner) == Room(old(m.owner)) - FramesFor(old(m.mem), d, RoundUp(oldsz), RoundUp(newsz))
  {
    hide Room;
    hide Missing;
    hide Tabled;
    hide FramesFor;
    hide Wf;
    hide ListOk;
    hide Lookup;
    hide Grown;
    hide Allocated;
    hide Dropped;
    hide MapsRange;
    hide Vacant;
    hide SameMap;
    hide AccessTo;
    ghost var mem0, owner0 := m.mem, m.owner;
    var a := RoundUp(oldsz);
    ghost var from, to := a, RoundUp(newsz);
    WfKeys(mem0, owner0);
    GrownRefl(mem0, owner0, d, None);
    AllocNone(mem0, owner0, d, from, from);
    NothingMissing(mem0, d, from);
    NoFrames(mem0, d, from);
    ok := newsz < KERNBASE;
    if newsz >= KERNBASE {
      return 0, false;
    }
    if newsz < oldsz {
      AllocNone(mem0, owner0, d, from, to);
      UserPages(mem0, owner0, m.mem, m.owner, d, from, to);
      return oldsz, true;
    }
    while PGSIZE * a < newsz
      invariant m.Valid() && IsDir(m.owner, d) && from <= a <= to && Grown(mem0, owner0, m.mem, m.owner, d, None)
      invariant Allocated(mem0, owner0, m.mem, d, from, a)
      invariant Tabled(mem0, m.mem, d, from, a) && Room(m.owner) == Room(owner0) - FramesFor(mem0, d, from, a)
      decreases newsz - PGSIZE * a
    {
      ghost var mem1 := m.mem;
      FramesNext(mem0, mem1, d, from, a, to);
      var more := AllocOne(m, d, a, oldsz, newsz, mem0, owner0);
      if !more {
        return 0, false;
      }
      TabledTrans(mem0, mem1, m.mem, d, from, a, a + 1);
      a := a + 1;
    }
    UserPages(mem0, owner0, m.mem, m.owner, d, from, to);
    sz := newsz;
  }

  lemma AllocNone(mem: Mem, owner: Owners, d: nat, from: nat, to: nat)
    requires to <= from
    ensures Allocated(mem, owner, mem, d, from, to) && SameMap(mem, mem, d)
  {
    hide Lookup;
  }

  lemma VacantStill(mem0: Mem, owner0: Owners, mem1: Mem, d: nat, from: nat, a: nat, to: nat)
    requires Vacant(mem0, d, from, to) && Allocated(mem0, owner0, mem1, d, from, a) && from <= a < to
    ensures Lookup(mem1, d, a).None?
  {
    assert AllocAt(mem0, owner0, mem1, d, from, a, a);
  }

  lemma Weaken(mem0: Mem, owner0: Owners, mem1: Mem, owner1: Owners, d: nat, f: nat)
    requires Grown(mem0, owner0, mem1, owner1, d, None)
    ensures Grown(mem0, owner0, mem1, owner1, d, Some(f))
  {
    forall g: nat ensures Some(f) != Some(g) ==> TookAt(owner0, owner1, d, g) {
      assert TookAt(owner0, owner1, d, g);
    }
  }

  // A failed mapping has left the pages allocated so far alone.
  lemma AllocSame(mem0: Mem, owner0: Owners, mem: Mem, owner: Owners, mem1: Mem, owner1: Owners, mem2: Mem,
                  owner2: Owners, d: nat, from: nat, a: nat, f: nat)
    requires Wf(mem, owner) && IsDir(owner, d) && Allocated(mem0, owner0, mem, d, from, a) && a < UPAGES
    requires f in owner && owner[f].Free? && mem1 == mem[f := Fill(ENTRIES, 0)] && owner1 == owner[f := Other]
    requires Grown(mem1, owner1, mem2, owner2, d, None) && MapsRange(mem1, mem2, d, a, a, f, PTE_W + PTE_U)
    ensures Allocated(mem0, owner0, mem2, d, from, a)
  {
    hide Lookup;
    hide Wf;
    IdleView(mem, owner, mem1, owner1, f);
    forall u: nat ensures AllocAt(mem0, owner0, mem2, d, from, a, u) {
      assert MapsAt(mem1, mem2, d, a, a, f, PTE_W + PTE_U, u) && AllocAt(mem0, owner0, mem, d, from, a, u);
      assert Lookup(mem1, d, u) == Lookup(mem, d, u);
      if from <= u < a {
        PageFrame(mem, owner, d, u);
        assert DataAt(mem1, owner1, mem2, Pn(Lookup(mem, d, u).value));
      }
    }
  }

  // Filling a frame that no table uses does not change which tables are missing.
  lemma FilledTables(mem: Mem, owner: Owners, mem': Mem, d: nat, a: nat)
    requires IsDir(owner, d)
    requires forall d: nat, i: nat {:trigger TableAt(mem', d, i)} | IsDir(owner, d) ::
               TableAt(mem', d, i) == TableAt(mem, d, i)
    ensures Tabled(mem, mem', d, 0, 0) && Missing(mem', d, a, a + 1) == Missing(mem, d, a, a + 1)
  {
    hide TableAt;
    TabledNone(mem, mem', d, 0, 0);
    MissingSame(mem, mem', d, a, a + 1);
  }

  lemma OtherStays(mem: Mem, owner: Owners, mem': Mem, owner': Owners, d: nat, from: nat, to: nat, f: nat)
    requires Dropped(mem, owner, mem', owner', d, from, to) && f in owner && owner[f].Other?
    ensures f in owner' && owner'[f].Other?
  {
    assert ReleasedAt(owner, owner', d, from, to, f);
  }

  lemma SameTwice(mem0: Mem, mem1: Mem, mem2: Mem, d: nat)
    requires SameMap(mem0, mem1, d)
    requires forall u: nat {:trigger Lookup(mem2, d, u)} :: Lookup(mem2, d, u) == Lookup(mem1, d, u)
    ensures SameMap(mem0, mem2, d)
  {
    hide Lookup;
    forall u: nat ensures Lookup(mem2, d, u) == Lookup(mem0, d, u) {
      assert Lookup(mem2, d, u) == Lookup(mem1, d, u);
    }
  }

  // One round of allocuvm: a zeroed page at a, or everything given back.
  method AllocOne(m: Memory, d: nat, a: nat, oldsz: uint, newsz: uint, ghost mem0: Mem, ghost owner0: Owners)
    returns (more: bool)
    requires m.Valid() && IsDir(m.owner, d) && oldsz <= newsz < KERNBASE && RoundUp(oldsz) <= a < RoundUp(newsz)
    requires Wf(mem0, owner0) && IsDir(owner0, d) && Vacant(mem0, d, RoundUp(oldsz), RoundUp(newsz))
    requires Grown(mem0, owner0, m.mem, m.owner, d, None) && Allocated(mem0, owner0, m.mem, d, RoundUp(oldsz), a)
    modifies m
    ensures m.Valid() && IsDir(m.owner, d) && Grown(mem0, owner0, m.mem, m.owner, d, None)
    ensures more ==> Allocated(mem0, owner0, m.mem, d, RoundUp(oldsz), a + 1)
    ensures !more ==> SameMap(mem0, m.mem, d)
    ensures more ==> Tabled(old(m.mem), m.mem, d, a, a + 1)
    ensures more ==> Room(m.owner) == Room(old(m.owner)) - 1 - Missing(old(m.mem), d, a, a + 1)
    ensures !more ==> Room(old(m.owner)) < 1 + Missing(old(m.mem), d, a, a + 1)
  {
    hide Room;
    hide Missing;
    hide Tabled;
    hide Wf;
    hide ListOk;
    hide Lookup;
    hide Grown;
    hide Allocated;
    hide Dropped;
    hide MapsRange;
    hide Vacant;
    hide SameMap;
    ghost var from, to, mem1, owner1 := RoundUp(oldsz), RoundUp(newsz), m.mem, m.owner;
    NoRoom(owner1);
    var r := m.Kalloc();
    if r.None? {
      var z := DeallocUvm(m, d, newsz, oldsz);
      AllocUndone(mem0, owner0, mem1, owner1, m.mem, m.owner, d, from, a, to, None);
      return false;
    }
    var f := r.value;
    ghost var owner2 := m.owner;
    FrameRange(m.end, mem1, owner1, old(m.list), old(m.freelist), f);
    var page := m.mem[f := Fill(ENTRIES, 0)];
    ListKept(FirstPage(m.end), mem1, owner2, m.list, m.freelist, page, owner2, f, f);
    IdleView(mem1, owner1, page, owner2, f);
    m.mem := page;
    VacantStill(mem0, owner0, mem1, d, from, a, to);
    assert Lookup(page, d, a) == Lookup(mem1, d, a);
    RoomTaken(owner1, f, Other);
    FilledTables(mem1, owner1, page, d, a);
    var ok := PutPage(m, d, a, f, PTE_W + PTE_U);
    if ok {
      AllocNext(mem0, owner0, mem1, owner1, page, owner2, m.mem, m.owner, d, from, a, f);
      TabledAfter(mem1, page, m.mem, d, a, a + 1);
      return true;
    }
    ghost var mem3, owner3 := m.mem, m.owner;
    TakeHand(mem0, owner0, mem1, owner1, page, owner2, d, f);
    Weaken(page, owner2, mem3, owner3, d, f);
    GrownTrans(mem0, owner0, page, owner2, mem3, owner3, d, Some(f));
    HandStays(page, owner2, mem3, owner3, d, f);
    AllocSame(mem0, owner0, mem1, owner1, page, owner2, mem3, owner3, d, from, a, f);
    var z := DeallocUvm(m, d, newsz, oldsz);
    ghost var mem4, owner4 := m.mem, m.owner;
    AllocUndone(mem0, owner0, mem3, owner3, mem4, owner4, d, from, a, to, Some(f));
    OtherStays(mem3, owner3, mem4, owner4, d, from, to, f);
    PageFreeable(m.end, f);
    var halted := m.Kfree(P2V(f));
    DropHand(mem0, owner0, mem4, owner4, m.mem, m.owner, d, f);
    IdleView(mem4, owner4, m.mem, m.owner, f);
    SameTwice(mem0, mem4, m.mem, d);
    return false;
  }

  // ---- copyuvm ----

  datatype CopyResult = Copied(child: nat) | Failed | Halted

  // Page u of the copy: same bytes and flags as the parent's, on a frame that was free.
  ghost predicate SamePage(mem: Mem, owner: Owners, mem': Mem, parent: nat, child: nat, u: nat)
  {
    && Lookup(mem, parent, u).Some? && Lookup(mem', child, u).Some?
    && Flags(Lookup(mem', child, u).value) == Flags(Lookup(mem, parent, u).value)
    && Pn(Lookup(mem, parent, u).value) in mem && Pn(Lookup(mem', child, u).value) in mem'
    && mem'[Pn(Lookup(mem', child, u).value)] == mem[Pn(Lookup(mem, parent, u).value)]
    && Pn(Lookup(mem', child, u).value) in owner && owner[Pn(Lookup(mem', child, u).value)].Free?
  }

  ghost predicate CopyAt(mem: Mem, owner: Owners, mem': Mem, parent: nat, child: nat, pd: nat, to: nat, u: nat)
    requires EXTMEM < PGSIZE * pd < PHYSTOP
  {
    if u < to then SamePage(mem, owner, mem', parent, child, u)
    else Lookup(mem', child, u) == KernelMap(pd, u)
  }

  // The child has the parent's pages below `to`, no other user page, and the kernel's mappings.
  ghost predicate CopyTo(mem: Mem, owner: Owners, mem': Mem, parent: nat, child: nat, pd: nat, to: nat)
    requires EXTMEM < PGSIZE * pd < PHYSTOP
  {
    forall u: nat {:trigger CopyAt(mem, owner, mem', parent, child, pd, to, u)} ::
      u < PAGES ==> CopyAt(mem, owner, mem', parent, child, pd, to, u)
  }

  lemma CopyNone(mem: Mem, owner: Owners, mem': Mem, parent: nat, child: nat, pd: nat)
    requires EXTMEM < PGSIZE * pd < PHYSTOP && KernelTo(mem', child, pd, PAGES)
    ensures CopyTo(mem, owner, mem', parent, child, pd, 0)
  {
    hide Lookup;
    forall u: nat | u < PAGES ensures CopyAt(mem, owner, mem', parent, child, pd, 0, u) {
      assert KernelAt(mem', child, pd, PAGES, u);
    }
  }

  // The parent's page v as it is read during the copy.
  lemma ParentPage(mem0: Mem, owner0: Owners, mem: Mem, owner: Owners, parent: nat, child: nat, v: nat)
    requires Wf(mem0, owner0) && IsDir(owner0, parent) && parent != child
    requires Grown(mem0, owner0, mem, owner, child, None)
    requires v < UPAGES
    ensures IsDir(owner, parent) && Lookup(mem, parent, v) == Lookup(mem0, parent, v)
    ensures Lookup(mem0, parent, v).Some? ==>
              var f := Pn(Lookup(mem0, parent, v).value);
              f in owner && owner[f] == Page(parent, v) && f in mem0 && f in mem && mem[f] == mem0[f]
  {
    hide Lookup;
    assert TookAt(owner0, owner, child, parent) && ViewAt(mem0, owner0, mem, child, parent, v);
    if Lookup(mem0, parent, v).Some? {
      PageFrame(mem0, owner0, parent, v);
      var f := Pn(Lookup(mem0, parent, v).value);
      assert TookAt(owner0, owner, child, f) && DataAt(mem0, owner0, mem, f);
    }
  }

  // Frame f, filled from the parent's page v, becomes page v of the child.
  lemma CopyNext(mem0: Mem, owner0: Owners, mem: Mem, owner: Owners, mem1: Mem, owner1: Owners, mem2: Mem,
                 owner2: Owners,
                 parent: nat, child: nat, pd: nat, v: nat, f: nat, e: uint)
    requires EXTMEM < PGSIZE * pd < PHYSTOP && v < UPAGES && Wf(mem0, owner0) && IsDir(owner0, parent)
    requires parent != child
    requires Grown(mem0, owner0, mem, owner, child, None) && CopyTo(mem0, owner0, mem, parent, child, pd, v)
    requires Wf(mem, owner) && IsDir(owner, child) && f in owner && owner[f].Free? && f < PAGES
    requires Lookup(mem0, parent, v) == Some(e) && Present(e) && Pn(e) in mem0
    requires mem1 == mem[f := mem0[Pn(e)]] && owner1 == owner[f := Other]
    requires Grown(mem1, owner1, mem2, owner2, child, Some(f)) && MapsRange(mem1, mem2, child, v, v + 1, f, Flags(e))
    requires f in owner2 && owner2[f] == Page(child, v)
    ensures Grown(mem0, owner0, mem2, owner2, child, None) && CopyTo(mem0, owner0, mem2, parent, child, pd, v + 1)
  {
    hide Lookup;
    hide Wf;
    TakeHand(mem0, owner0, mem, owner, mem1, owner1, child, f);
    GrownTrans(mem0, owner0, mem1, owner1, mem2, owner2, child, Some(f));
    KeepHand(mem0, owner0, mem2, owner2, child, f);
    IdleView(mem, owner, mem1, owner1, f);
    FlagsOdd(e);
    var to := v + 1;
    forall u: nat | u < PAGES ensures CopyAt(mem0, owner0, mem2, parent, child, pd, to, u) {
      assert MapsAt(mem1, mem2, child, v, to, f, Flags(e), u) && CopyAt(mem0, owner0, mem, parent, child, pd, v, u);
      assert Lookup(mem1, child, u) == Lookup(mem, child, u);
      if u == v {
        assert DataAt(mem1, owner1, mem2, f);
      } else if u < v {
        PageFrame(mem, owner, child, u);
        assert DataAt(mem1, owner1, mem2, Pn(Lookup(mem, child, u).value));
      }
    }
  }

  lemma FlagsOdd(e: uint)
    requires Present(e)
    ensures Flags(e) < PGSIZE && Flags(e) % 2 == 1
  {
  }

  lemma LookupPresent(mem: Mem, d: nat, v: nat)
    ensures Lookup(mem, d, v).Some? ==> Present(Lookup(mem, d, v).value)
  {
  }

  // What a copy of sz bytes takes: the kernel part, the pages, and a table for every 1024 of them.
  function CopyFrames(sz: nat): int { KVM_FRAMES + RoundUp(sz) + RoundUp(RoundUp(sz) * 4) }

  lemma ChildFrames(mem: Mem, d: nat, sz: nat)
    requires NoUserTables(mem, d) && sz <= KERNBASE
    ensures KVM_FRAMES + FramesFor(mem, d, 0, RoundUp(sz)) == CopyFrames(sz)
  {
    hide TableAt;
    hide Missing;
    var to := RoundUp(sz);
    forall i: nat | InSpan(i, 0, to) ensures TableAt(mem, d, i).None? {
      assert i < Pdx(UPAGES);
    }
    MissingAll(mem, d, 0, to);
    assert to > 0 ==> (to * 4 + PGSIZE - 1) / PGSIZE == (to - 1) / ENTRIES + 1;
  }

  method CopyUvm(m: Memory, parent: nat, sz: uint, pd: nat) returns (r: CopyResult)
    requires m.Valid() && IsDir(m.owner, parent) && sz <= KERNBASE && EXTMEM < PGSIZE * pd < PHYSTOP
    modifies m
    ensures r.Halted? ==> exists v: nat :: PGSIZE * v < sz && old(Lookup(m.mem, parent, v)).None?
    ensures !r.Halted? ==> m.Valid() && Undisturbed(old(m.mem), old(m.owner), m.mem)
    ensures r.Failed? ==> m.owner == old(m.owner)
    ensures r.Copied? ==> r.child in old(m.owner) && old(m.owner)[r.child].Free? && IsDir(m.owner, r.child)
    ensures r.Copied? ==> Grown(old(m.mem), old(m.owner), m.mem, m.owner, r.child, None)
    ensures r.Copied? ==> CopyTo(old(m.mem), old(m.owner), m.mem, parent, r.child, pd, RoundUp(sz))
    // The child may do with its pages what the parent may with its own.
    ensures r.Copied? ==>
              forall u | 0 <= u < RoundUp(sz) :: AccessTo(m.mem, r.child, u) == AccessTo(old(m.mem), parent, u)
    // Unless a page of the parent is missing, it fails exactly if there are too few frames.
    ensures r.Failed? ==> Room(old(m.owner)) < CopyFrames(sz)
    ensures r.Copied? ==> Room(m.owner) == Room(old(m.owner)) - CopyFrames(sz)
  {
    hide Room;
    hide Missing;
    hide Tabled;
    hide FramesFor;
    hide NoUserTables;
    hide Wf;
    hide ListOk;
    hide Lookup;
    hide Grown;
    hide CopyTo;
    hide KernelTo;
    hide Undisturbed;
    hide AccessTo;
    ghost var mem0, owner0 := m.mem, m.owner;
    var d0 := SetupKvm(m, pd);
    if d0.None? {
      return Failed;
    }
    var d := d0.value;
    CopyNone(mem0, owner0, m.mem, parent, d, pd);
    ghost var kvm := m.mem;
    NothingMissing(kvm, d, 0);
    NoFrames(kvm, d, 0);
    ChildFrames(kvm, d, sz);
    var i := 0;
    while PGSIZE * i < sz
      invariant m.Valid() && IsDir(m.owner, d) && i <= RoundUp(sz) && Grown(mem0, owner0, m.mem, m.owner, d, None)
      invariant CopyTo(mem0, owner0, m.mem, parent, d, pd, i)
      invariant Tabled(kvm, m.mem, d, 0, i) && Room(m.owner) == Room(owner0) - KVM_FRAMES - FramesFor(kvm, d, 0, i)
      decreases sz - PGSIZE * i
    {
      ghost var mem1 := m.mem;
      FramesNext(kvm, mem1, d, 0, i, RoundUp(sz));
      r := CopyOne(m, parent, d, i, pd, mem0, owner0);
      if !r.Copied? {
        return;
      }
      TabledTrans(kvm, mem1, m.mem, d, 0, i, i + 1);
      i := i + 1;
    }
    LeftAlone(mem0, owner0, m.mem, m.owner, d);
    SameAccess(mem0, owner0, m.mem, m.owner, parent, d, pd, RoundUp(sz));
    r := Copied(d);
  }

  lemma SameAccess(mem0: Mem, owner0: Owners, mem: Mem, owner: Owners, parent: nat, d: nat, pd: nat, to: nat)
    requires EXTMEM < PGSIZE * pd < PHYSTOP && to <= UPAGES && CopyTo(mem0, owner0, mem, parent, d, pd, to)
    requires Wf(mem0, owner0) && IsDir(owner0, parent) && Wf(mem, owner) && IsDir(owner, d)
    ensures forall u | 0 <= u < to :: AccessTo(mem, d, u) == AccessTo(mem0, parent, u)
  {
    hide Wf;
    hide Lookup;
    hide AccessTo;
    forall u | 0 <= u < to ensures AccessTo(mem, d, u) == AccessTo(mem0, parent, u) {
      assert CopyAt(mem0, owner0, mem, parent, d, pd, to, u);
      AccessIs(mem, owner, d, u);
      AccessIs(mem0, owner0, parent, u);
      FlagBits(Lookup(mem, d, u).value);
      FlagBits(Lookup(mem0, parent, u).value);
    }
  }

  lemma LeftAlone(mem0: Mem, owner0: Owners, mem: Mem, owner: Owners, d: nat)
    requires Grown(mem0, owner0, mem, owner, d, None) && !IsDir(owner0, d)
    ensures Undisturbed(mem0, owner0, mem)
  {
    hide Lookup;
    forall d': nat, u: nat | IsDir(owner0, d') ensures Lookup(mem, d', u) == Lookup(mem0, d', u) {
      assert ViewAt(mem0, owner0, mem, d, d', u);
    }
  }

  // One round of copyuvm.
  method CopyOne(m: Memory, parent: nat, d: nat, v: nat, pd: nat, ghost mem0: Mem, ghost owner0: Owners)
    returns (r: CopyResult)
    requires m.Valid() && IsDir(m.owner, d) && v < UPAGES && EXTMEM < PGSIZE * pd < PHYSTOP
    requires Wf(mem0, owner0) && IsDir(owner0, parent) && d in owner0 && owner0[d].Free?
    requires Grown(mem0, owner0, m.mem, m.owner, d, None) && CopyTo(mem0, owner0, m.mem, parent, d, pd, v)
    modifies m
    ensures r.Halted? <==> Lookup(mem0, parent, v).None?
    ensures !r.Halted? ==> m.Valid()
    ensures r.Copied? ==> r.child == d && IsDir(m.owner, d) && Grown(mem0, owner0, m.mem, m.owner, d, None)
    ensures r.Copied? ==> CopyTo(mem0, owner0, m.mem, parent, d, pd, v + 1)
    ensures r.Failed? ==> m.owner == owner0 && Undisturbed(mem0, owner0, m.mem)
    ensures r.Copied? ==> Tabled(old(m.mem), m.mem, d, v, v + 1)
    ensures r.Copied? ==> Room(m.owner) == Room(old(m.owner)) - 1 - Missing(old(m.mem), d, v, v + 1)
    ensures r.Failed? ==> Room(old(m.owner)) < 1 + Missing(old(m.mem), d, v, v + 1)
  {
    hide Room;
    hide Missing;
    hide Tabled;
    hide Wf;
    hide ListOk;
    hide Lookup;
    hide TableAt;
    hide Grown;
    hide CopyTo;
    hide MapsRange;
    hide Undisturbed;
    hide Pn;
    hide Flags;
    hide Entry;
    hide Pdx;
    hide Ptx;
    hide Present;
    hide SameMap;
    ParentPage(mem0, owner0, m.mem, m.owner, parent, d, v);
    LookupPresent(mem0, parent, v);
    ghost var mem1, owner1 := m.mem, m.owner;
    var t := WalkPgdir(m, parent, v, false);
    if t.None? {
      NoTableNoPage(m.mem, parent, v);
      return Halted;
    }
    LookupIs(m.mem, m.owner, parent, v, t.value);
    var pte := m.mem[t.value][Ptx(v)];
    if !Present(pte) {
      return Halted;
    }
    NoRoom(owner1);
    var c := m.Kalloc();
    ghost var owner2 := m.owner;
    if c.None? {
      FreeVm(m, d);
      Undone(mem0, owner0, mem1, owner1, m.mem, m.owner, d);
      return Failed;
    }
    var f := c.value;
    FrameRange(m.end, mem1, owner1, old(m.list), old(m.freelist), f);
    var page := m.mem[f := m.mem[Pn(pte)]];
    ListKept(FirstPage(m.end), mem1, owner2, m.list, m.freelist, page, owner2, f, f);
    IdleView(mem1, owner1, page, owner2, f);
    m.mem := page;
    FlagsOdd(pte);
    VacantChild(mem0, owner0, mem1, parent, d, pd, v);
    assert Lookup(page, d, v) == Lookup(mem1, d, v);
    RoomTaken(owner1, f, Other);
    FilledTables(mem1, owner1, page, d, v);
    var ok := PutPage(m, d, v, f, Flags(pte));
    if ok {
      CopyNext(mem0, owner0, mem1, owner1, page, owner2, m.mem, m.owner, parent, d, pd, v, f, pte);
      TabledAfter(mem1, page, m.mem, d, v, v + 1);
      return Copied(d);
    }
    TakeHand(mem0, owner0, mem1, owner1, page, owner2, d, f);
    FreeHand(m, d, f, mem0, owner0, page, owner2);
    ghost var mem3, owner3 := m.mem, m.owner;
    FreeVm(m, d);
    Undone(mem0, owner0, mem3, owner3, m.mem, m.owner, d);
    return Failed;
  }

  lemma VacantChild(mem0: Mem, owner0: Owners, mem: Mem, parent: nat, d: nat, pd: nat, v: nat)
    requires EXTMEM < PGSIZE * pd < PHYSTOP && CopyTo(mem0, owner0, mem, parent, d, pd, v) && v < UPAGES
    ensures Lookup(mem, d, v).None?
  {
    assert CopyAt(mem0, owner0, mem, parent, d, pd, v, v);
  }

  // mappages for the single page v, which is not mapped.
  method PutPage(m: Memory, d: nat, v: nat, f: nat, perm: nat) returns (ok: bool)
    requires m.Valid() && IsDir(m.owner, d) && v < UPAGES && f in m.owner && m.owner[f].Other? && f < TOP
    requires perm < PGSIZE
    requires Lookup(m.mem, d, v).None?
    modifies m
    ensures m.Valid() && IsDir(m.owner, d)
    ensures ok ==> Grown(old(m.mem), old(m.owner), m.mem, m.owner, d, Some(f))
    ensures ok ==> MapsRange(old(m.mem), m.mem, d, v, v + 1, f, perm)
    ensures ok ==> f in m.owner && m.owner[f] == Page(d, v)
    ensures !ok ==> Grown(old(m.mem), old(m.owner), m.mem, m.owner, d, None)
    ensures !ok ==> MapsRange(old(m.mem), m.mem, d, v, v, f, perm)
    ensures ok ==> Tabled(old(m.mem), m.mem, d, v, v + 1)
    ensures ok ==> Room(m.owner) == Room(old(m.owner)) - Missing(old(m.mem), d, v, v + 1)
    ensures !ok ==> Room(old(m.owner)) < Missing(old(m.mem), d, v, v + 1)
  {
    hide Room;
    hide Missing;
    hide Tabled;
    hide Wf;
    hide ListOk;
    hide Lookup;
    hide Grown;
    hide MapsRange;
    assert PGSIZE * v / PGSIZE == v && PGSIZE * f / PGSIZE == f && Last(PGSIZE * v, PGSIZE) == v;
    ghost var done;
    var res: MapResult;
    res, done := MapPages(m, d, PGSIZE * v, PGSIZE, PGSIZE * f, perm);
    ok := res.Mapped?;
  }

  // kfree of the frame in hand.
  method FreeHand(m: Memory, d: nat, f: nat, ghost mem0: Mem, ghost owner0: Owners, ghost mem1: Mem,
                  ghost owner1: Owners)
    requires m.Valid() && IsDir(m.owner, d) && Grown(mem0, owner0, mem1, owner1, d, Some(f))
    requires Grown(mem1, owner1, m.mem, m.owner, d, None)
    requires f in owner0 && owner0[f].Free? && f in owner1 && owner1[f].Other?
    modifies m
    ensures m.Valid() && IsDir(m.owner, d) && Grown(mem0, owner0, m.mem, m.owner, d, None)
  {
    hide Wf;
    hide ListOk;
    hide Grown;
    ghost var mem2, owner2 := m.mem, m.owner;
    Weaken(mem1, owner1, mem2, owner2, d, f);
    GrownTrans(mem0, owner0, mem1, owner1, mem2, owner2, d, Some(f));
    HandStays(mem1, owner1, mem2, owner2, d, f);
    FrameRange(m.end, mem2, owner2, m.list, m.freelist, f);
    PageFreeable(m.end, f);
    var halted := m.Kfree(P2V(f));
    DropHand(mem0, owner0, mem2, owner2, m.mem, m.owner, d, f);
    IdleView(mem2, owner2, m.mem, m.owner, f);
  }

  // ---- growproc ----

  ghost predicate FittedAt(mem: Mem, d: nat, sz: nat, u: nat)
  {
    u < UPAGES ==> (Lookup(mem, d, u).Some? <==> PGSIZE * u < sz)
  }

  // The user part of d is exactly the pages of a process of size sz.
  ghost predicate Fitted(mem: Mem, d: nat, sz: nat)
  {
    forall u: nat {:trigger FittedAt(mem, d, sz, u)} :: FittedAt(mem, d, sz, u)
  }

  lemma FittedGrows(mem: Mem, owner: Owners, mem': Mem, d: nat, sz: nat, sz': nat)
    requires Fitted(mem, d, sz) && sz <= sz' && Allocated(mem, owner, mem', d, RoundUp(sz), RoundUp(sz'))
    ensures Fitted(mem', d, sz')
  {
    hide Lookup;
    forall u: nat ensures FittedAt(mem', d, sz', u) {
      assert FittedAt(mem, d, sz, u) && AllocAt(mem, owner, mem', d, RoundUp(sz), RoundUp(sz'), u);
    }
  }

  lemma FittedShrinks(mem: Mem, mem': Mem, d: nat, sz: nat, sz': nat)
    requires Fitted(mem, d, sz) && sz' <= sz && Unmaps(mem, mem', d, RoundUp(sz'), RoundUp(sz))
    ensures Fitted(mem', d, sz')
  {
    hide Lookup;
    forall u: nat ensures FittedAt(mem', d, sz', u) {
      assert FittedAt(mem, d, sz, u) && UnmapsAt(mem, mem', d, RoundUp(sz'), RoundUp(sz), u);
    }
  }

  lemma FittedSame(mem: Mem, mem': Mem, d: nat, sz: nat)
    requires Fitted(mem, d, sz) && SameMap(mem, mem', d)
    ensures Fitted(mem', d, sz)
  {
    hide Lookup;
    forall u: nat ensures FittedAt(mem', d, sz, u) {
      assert FittedAt(mem, d, sz, u) && Lookup(mem', d, u) == Lookup(mem, d, u);
    }
  }

  lemma VacantAbove(mem: Mem, d: nat, sz: nat, to: nat)
    requires Fitted(mem, d, sz) && to <= UPAGES
    ensures Vacant(mem, d, RoundUp(sz), to)
  {
    hide Lookup;
    forall u: nat | RoundUp(sz) <= u < to ensures Lookup(mem, d, u).None? {
      assert FittedAt(mem, d, sz, u);
    }
  }

  // An emptied address space does not fit a process that still has a size.
  lemma NotFitted(mem: Mem, d: nat, sz: nat)
    requires 0 < sz && Lookup(mem, d, 0).None?
    ensures !Fitted(mem, d, sz)
  {
    assert !FittedAt(mem, d, sz, 0);
  }

  // The result and new size of growproc(n) for a process of size sz.  The size still tells what is
  // mapped, except when the process gives up its whole size: the pages go, and 0 reads as an error.
  method GrowProc(m: Memory, d: nat, sz: uint, n: int) returns (r: int, sz': uint)
    requires m.Valid() && IsDir(m.owner, d) && sz < KERNBASE && Fitted(m.mem, d, sz) && -0x8000_0000 <= n < 0x8000_0000
    modifies m
    ensures m.Valid() && IsDir(m.owner, d)
    ensures Fitted(m.mem, d, sz') <==> n >= 0 || sz + n != 0
    ensures r == 0 || (r == -1 && sz' == sz)
    ensures r == 0 ==> sz' == if sz + n >= 0 then sz + n else sz
    ensures n < 0 ==> (r == 0 <==> sz != 0 && sz + n != 0)
    ensures n < 0 ==>
              Dropped(old(m.mem), old(m.owner), m.mem, m.owner, d, if sz + n >= 0 then RoundUp(sz + n) else RoundUp(sz),
                      RoundUp(sz))
    ensures n >= 0 ==> Grown(old(m.mem), old(m.owner), m.mem, m.owner, d, None)
    ensures n >= 0 && r == -1 ==> SameMap(old(m.mem), m.mem, d)
    ensures n >= 0 && r == 0 ==> Allocated(old(m.mem), old(m.owner), m.mem, d, RoundUp(sz), RoundUp(sz'))
    ensures n > 0 ==>
              var frames := FramesFor(old(m.mem), d, RoundUp(sz), RoundUp(sz + n));
              r == 0 <==> sz + n < KERNBASE && Room(old(m.owner)) >= frames
  {
    hide Room;
    hide FramesFor;
    hide Wf;
    hide ListOk;
    hide Lookup;
    hide Grown;
    hide Fitted;
    hide Allocated;
    hide Vacant;
    hide SameMap;
    hide Unmaps;
    hide ReleasedRange;
    hide Shrunk;
    ghost var mem0, owner0 := m.mem, m.owner;
    WfKeys(mem0, owner0);
    GrownRefl(mem0, owner0, d, None);
    DroppedNone(mem0, owner0, d, RoundUp(sz), RoundUp(sz));
    AllocNone(mem0, owner0, d, RoundUp(sz), RoundUp(sz));
    sz' := sz;
    if n > 0 {
      if sz + n < KERNBASE {
        VacantAbove(mem0, d, sz, RoundUp(sz + n));
      }
      ghost var ok;
      var z: uint;
      z, ok := AllocUvm(m, d, sz, sz + n);
      if ok {
        FittedGrows(mem0, owner0, m.mem, d, sz, sz + n);
      } else {
        FittedSame(mem0, m.mem, d, sz);
      }
      if z == 0 {
        return -1, sz;
      }
      sz' := z;
    } else if n < 0 {
      var target: uint := if sz + n >= 0 then sz + n else sz + n + UINT_LIMIT;
      var z := DeallocUvm(m, d, sz, target);
      if sz + n >= 0 {
        FittedShrinks(mem0, m.mem, d, sz, target);
      } else {
        DroppedFrom(mem0, owner0, m.mem, m.owner, d, RoundUp(target), RoundUp(sz));
        FittedShrinks(mem0, m.mem, d, sz, sz);
      }
      if z == 0 {
        if sz != 0 {
          EmptyRange(m.mem, d);
          NotFitted(m.mem, d, sz);
        }
        return -1, sz;
      }
      sz' := z;
    }
    r := 0;
  }

  // An empty range may as well start at its end.
  lemma DroppedFrom(mem: Mem, owner: Owners, mem': Mem, owner': Owners, d: nat, from: nat, to: nat)
    requires Dropped(mem, owner, mem', owner', d, from, to) && to <= from
    ensures Dropped(mem, owner, mem', owner', d, to, to)
  {
    hide Lookup;
    hide Shrunk;
    forall u: nat ensures UnmapsAt(mem, mem', d, to, to, u) {
      assert UnmapsAt(mem, mem', d, from, to, u);
    }
    forall f: nat ensures ReleasedAt(owner, owner', d, to, to, f) {
      assert ReleasedAt(owner, owner', d, from, to, f);
    }
  }

  lemma EmptyRange(mem: Mem, d: nat)
    requires Fitted(mem, d, 0)
    ensures Lookup(mem, d, 0).None?
  {
    assert FittedAt(mem, d, 0, 0);
  }
}
