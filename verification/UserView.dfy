/**
 Memory as a process sees it: what a load reads and a store changes, through the two levels of its page tables.

 Addresses are of 32-bit words.  Only frames that kalloc manages have contents here.
 */
module UserView {

  import opened Bytes
  import opened Kalloc
  import opened PageTables
  import opened Uvm
  import opened Vm
  import opened VmSteps

  // The entry of directory d's tables for address va, as the hardware walks to it.
  ghost function Walk(mem: Mem, d: nat, va: uint): Option<uint>
  {
    if d !in mem || mem[d][va / 0x40_0000] % 2 == 0 then None else
      var t := mem[d][va / 0x40_0000] / 0x1000;
      if t !in mem || mem[t][va / 0x1000 % 1024] % 2 == 0 then None else Some(mem[t][va / 0x1000 % 1024])
  }

  ghost function Load(mem: Mem, d: nat, va: uint): Option<uint>
  {
    var e := Walk(mem, d, va);
    if e.Some? && e.value / 0x1000 in mem then Some(mem[e.value / 0x1000][va % 0x1000 / 4]) else None
  }

  ghost function Store(mem: Mem, d: nat, va: uint, x: uint): Mem
    requires Load(mem, d, va).Some?
  {
    var f := Walk(mem, d, va).value / 0x1000;
    mem[f := mem[f][va % 0x1000 / 4 := x]]
  }

  lemma WalkIs(mem: Mem, d: nat, va: uint)
    ensures Walk(mem, d, va) == Lookup(mem, d, va / PGSIZE)
  {
    assert va / 0x40_0000 == va / PGSIZE / ENTRIES;
  }

  // ---- Isolation ----

  // The frame behind a user address is the page's own.
  lemma OwnFrame(mem: Mem, owner: Owners, d: nat, va: uint)
    requires Wf(mem, owner) && IsDir(owner, d) && va < KERNBASE && Walk(mem, d, va).Some?
    ensures var f := Walk(mem, d, va).value / 0x1000;
      f in mem && f in owner && owner[f] == Page(d, va / PGSIZE) && Load(mem, d, va).Some?
  {
    WalkIs(mem, d, va);
    assert PageOk(mem, owner, d, va / PGSIZE);
  }

  // A process that stores a word below KERNBASE changes that word of its own memory, and nothing that any process can
  // read there otherwise; the tables stay in order.
  lemma Isolation(mem: Mem, owner: Owners, d: nat, va: uint, x: uint, d': nat, va': uint)
    requires Wf(mem, owner) && IsDir(owner, d) && IsDir(owner, d') && va < KERNBASE && va' < KERNBASE
    requires Load(mem, d, va).Some?
    ensures Wf(Store(mem, d, va, x), owner)
    ensures Load(Store(mem, d, va, x), d', va') ==
              if d' == d && va' / 4 == va / 4 then Some(x) else Load(mem, d', va')
  {
    hide Wf;
    var mem' := Store(mem, d, va, x);
    OwnFrame(mem, owner, d, va);
    WfKeys(mem, owner);
    StoreKeepsTables(mem, owner, d, va, x);
    IdleKeeps(mem, owner, mem', owner);
    LookupKept(mem, owner, mem', d', va' / PGSIZE);
    WalkIs(mem, d', va');
    WalkIs(mem', d', va');
    WordParts(va, va');
    if Walk(mem, d', va').Some? {
      OwnFrame(mem, owner, d', va');
    }
  }

  lemma StoreKeepsTables(mem: Mem, owner: Owners, d: nat, va: uint, x: uint)
    requires mem.Keys == owner.Keys && Load(mem, d, va).Some? && owner[Walk(mem, d, va).value / 0x1000].Page?
    ensures SameTables(owner, mem, Store(mem, d, va, x)) && IdleMove(owner, owner)
  {
  }

  lemma WordParts(va: uint, va': uint)
    ensures va / 4 == va' / 4 <==> va / PGSIZE == va' / PGSIZE && va % PGSIZE / 4 == va' % PGSIZE / 4
  {
    assert va / 4 == 1024 * (va / PGSIZE) + va % PGSIZE / 4 && va' / 4 == 1024 * (va' / PGSIZE) + va' % PGSIZE / 4;
  }

  // ---- What the operations on one address space do to the others ----

  // A directory that gains tables and pages leaves the memory of every other process alone.
  lemma OthersGrow(mem: Mem, owner: Owners, mem': Mem, owner': Owners, d: nat, d': nat, va: uint)
    requires Wf(mem, owner) && Grown(mem, owner, mem', owner', d, None) && IsDir(owner, d') && d' != d && va < KERNBASE
    ensures Load(mem', d', va) == Load(mem, d', va)
  {
    hide Lookup;
    WalkIs(mem, d', va);
    WalkIs(mem', d', va);
    assert ViewAt(mem, owner, mem', d, d', va / PGSIZE);
    if Walk(mem, d', va).Some? {
      OwnFrame(mem, owner, d', va);
      assert DataAt(mem, owner, mem', Walk(mem, d', va).value / 0x1000);
    }
  }

  // ---- What they do to their own ----

  // The new memory of a process that grows reads as zero, and can be read and written.
  lemma GrownReads(mem: Mem, owner: Owners, mem': Mem, owner': Owners, d: nat, from: nat, to: nat, va: uint)
    requires Wf(mem', owner') && IsDir(owner', d) && Allocated(mem, owner, mem', d, from, to)
    requires from <= va / PGSIZE < to
    ensures Load(mem', d, va) == Some(0) && AccessTo(mem', d, va / PGSIZE) == Some(Access(true, true))
  {
    WalkIs(mem', d, va);
    assert AllocAt(mem, owner, mem', d, from, to, va / PGSIZE);
    UserPages(mem, owner, mem', owner', d, from, to);
  }

  // Its old memory reads as before.
  lemma GrownKeeps(mem: Mem, owner: Owners, mem': Mem, owner': Owners, d: nat, from: nat, to: nat, va: uint)
    requires Wf(mem, owner) && IsDir(owner, d) && Grown(mem, owner, mem', owner', d, None) && va < KERNBASE
    requires Allocated(mem, owner, mem', d, from, to) && !(from <= va / PGSIZE < to)
    ensures Load(mem', d, va) == Load(mem, d, va)
  {
    hide Lookup;
    WalkIs(mem, d, va);
    WalkIs(mem', d, va);
    assert AllocAt(mem, owner, mem', d, from, to, va / PGSIZE);
    if Walk(mem, d, va).Some? {
      OwnFrame(mem, owner, d, va);
      assert DataAt(mem, owner, mem', Walk(mem, d, va).value / 0x1000);
    }
  }

  // A child reads at every address of its memory what its parent read.
  lemma ForkReads(mem: Mem, owner: Owners, mem': Mem, parent: nat, child: nat, pd: nat, to: nat, va: uint)
    requires EXTMEM < PGSIZE * pd < PHYSTOP && CopyTo(mem, owner, mem', parent, child, pd, to) && va / PGSIZE < to
    ensures Load(mem, parent, va).Some? && Load(mem', child, va) == Load(mem, parent, va)
  {
    WalkIs(mem, parent, va);
    WalkIs(mem', child, va);
    assert CopyAt(mem, owner, mem', parent, child, pd, to, va / PGSIZE);
  }

  // What a process gives up cannot be read any more, and the rest of its memory reads as before.
  lemma ShrunkReads(mem: Mem, owner: Owners, mem': Mem, owner': Owners, d: nat, from: nat, to: nat, va: uint)
    requires Wf(mem', owner') && IsDir(owner', d) && Dropped(mem, owner, mem', owner', d, from, to) && va < KERNBASE
    ensures Load(mem', d, va) == if from <= va / PGSIZE < to then None else Load(mem, d, va)
  {
    hide Lookup;
    WalkIs(mem, d, va);
    WalkIs(mem', d, va);
    assert UnmapsAt(mem, mem', d, from, to, va / PGSIZE);
    if Walk(mem', d, va).Some? {
      OwnFrame(mem', owner', d, va);
      assert KeptAt(mem, owner', mem', Walk(mem', d, va).value / 0x1000);
    }
  }

  lemma OthersShrink(mem: Mem, owner: Owners, mem': Mem, owner': Owners, d: nat, d': nat, va: uint)
    requires Wf(mem, owner) && Wf(mem', owner') && Shrunk(mem, owner, mem', owner', d) && va < KERNBASE
    requires IsDir(owner, d') && d' != d
    ensures Load(mem', d', va) == Load(mem, d', va)
  {
    hide Lookup;
    WalkIs(mem, d', va);
    WalkIs(mem', d', va);
    assert ViewAt(mem, owner, mem', d, d', va / PGSIZE);
    assert GaveAt(owner, owner', d, d');
    if Walk(mem', d', va).Some? {
      OwnFrame(mem', owner', d', va);
      assert KeptAt(mem, owner', mem', Walk(mem', d', va).value / 0x1000);
    }
  }

  // In every directory the kernel finds physical address a at KERNBASE + a.
  lemma KernelReads(mem: Mem, d: nat, pd: nat, a: nat)
    requires EXTMEM < PGSIZE * pd < PHYSTOP && KernelTo(mem, d, pd, PAGES) && a < PHYSTOP && a / PGSIZE in mem
    ensures Load(mem, d, KERNBASE + a) == Some(mem[a / PGSIZE][a % PGSIZE / 4])
  {
    var u := (KERNBASE + a) / PGSIZE;
    assert u == UPAGES + a / PGSIZE && (KERNBASE + a) % PGSIZE == a % PGSIZE;
    WalkIs(mem, d, KERNBASE + a);
    assert KernelAt(mem, d, pd, PAGES, u);
  }
}
