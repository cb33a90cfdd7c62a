/**
 Two-level page tables over physical frames, as values.

 A frame is 1024 words.  `owner` says what each frame that kalloc manages is used for, and Wf ties it
 to the tables: every table and every user page of a live page directory has a frame of its own, and
 every frame that is so used is reached from exactly that place.
 */
module PageTables {

  import opened Bytes

  const PGSIZE: nat := 4096
  const ENTRIES: nat := 1024            // words in a frame, entries in a table
  const KERNBASE: nat := 0x8000_0000
  const UPAGES: nat := 0x80000          // pages below KERNBASE
  const PAGES: nat := 0x100000          // pages in all

  const PTE_P: nat := 1
  const PTE_W: nat := 2
  const PTE_U: nat := 4

  type Frame = f: seq<uint> | |f| == ENTRIES witness seq(ENTRIES, i => 0)

  // ---- Entries: page number and flags ----

  predicate Present(e: uint) { e % 2 == 1 }

  function Pn(e: uint): nat { e / PGSIZE }

  function Flags(e: uint): nat { e % PGSIZE }

  // pa | perm | PTE_P for the page with number pn.
  function Entry(pn: nat, perm: nat): (e: uint)
    requires pn < PAGES && perm < PGSIZE
    ensures Present(e) && Pn(e) == pn && Flags(e) == if perm % 2 == 1 then perm else perm + PTE_P
  {
    var flags := if perm % 2 == 1 then perm else perm + PTE_P;
    var e := pn * PGSIZE + flags;
    assert e / PGSIZE == pn && e % PGSIZE == flags;
    e
  }

  function Pdx(v: nat): nat { v / ENTRIES }

  function Ptx(v: nat): (j: nat)
    ensures j < ENTRIES
  {
    v % ENTRIES
  }

  lemma PageParts(u: nat, v: nat)
    ensures Pdx(u) == Pdx(v) && Ptx(u) == Ptx(v) ==> u == v
    ensures v < PAGES ==> Pdx(v) < ENTRIES
    ensures v < UPAGES ==> Pdx(v) < ENTRIES
  {
    assert u == ENTRIES * (u / ENTRIES) + u % ENTRIES && v == ENTRIES * (v / ENTRIES) + v % ENTRIES;
  }

  // ---- What the tables map ----

  datatype Owner =
    | Free
    | Other                          // handed out by kalloc, for any use the tables do not show
    | Dir
    | Table(dir: nat, index: nat)
    | Page(dir: nat, page: nat)

  type Mem = map<nat, Frame>
  type Owners = map<nat, Owner>

  ghost function TableAt(mem: Mem, d: nat, i: nat): Option<nat>
  {
    if d in mem && i < ENTRIES && Present(mem[d][i]) then Some(Pn(mem[d][i])) else None
  }

  // The entry for page v of directory d, when there is one and it is present.
  ghost function Lookup(mem: Mem, d: nat, v: nat): Option<uint>
  {
    var t := TableAt(mem, d, Pdx(v));
    if t.Some? && t.value in mem && Present(mem[t.value][Ptx(v)]) then Some(mem[t.value][Ptx(v)]) else None
  }

  // Entry i of directory d, as it stands.
  ghost function DirEntry(mem: Mem, d: nat, i: nat): uint { if d in mem && i < ENTRIES then mem[d][i] else 0 }

  predicate Writable(e: uint) { e / PTE_W % 2 == 1 }

  predicate UserMode(e: uint) { e / PTE_U % 2 == 1 }

  datatype Access = Access(write: bool, user: bool)

  // What the hardware lets be done with page v: what its directory entry and its table entry both allow.
  ghost function AccessTo(mem: Mem, d: nat, v: nat): Option<Access>
  {
    var pde, pte := DirEntry(mem, d, Pdx(v)), Lookup(mem, d, v);
    if pte.None? then None
    else Some(Access(Writable(pde) && Writable(pte.value), UserMode(pde) && UserMode(pte.value)))
  }

  ghost predicate IsDir(owner: Owners, d: nat) { d in owner && owner[d] == Dir }

  ghost predicate OwnedOk(mem: Mem, owner: Owners, f: nat)
  {
    f in owner ==>
      match owner[f]
      case Table(d, i) => IsDir(owner, d) && i < ENTRIES && TableAt(mem, d, i) == Some(f)
      case Page(d, v) => IsDir(owner, d) && v < UPAGES && Lookup(mem, d, v).Some? && Pn(Lookup(mem, d, v).value) == f
      case _ => true
  }

  ghost predicate TableOk(mem: Mem, owner: Owners, d: nat, i: nat)
  {
    IsDir(owner, d) && TableAt(mem, d, i).Some? ==>
      && TableAt(mem, d, i).value in owner && owner[TableAt(mem, d, i).value] == Table(d, i)
      && Flags(DirEntry(mem, d, i)) == PTE_P + PTE_W + PTE_U
  }

  ghost predicate PageOk(mem: Mem, owner: Owners, d: nat, v: nat)
  {
    IsDir(owner, d) && v < UPAGES && Lookup(mem, d, v).Some? ==>
      Pn(Lookup(mem, d, v).value) in owner && owner[Pn(Lookup(mem, d, v).value)] == Page(d, v)
  }

  ghost predicate Wf(mem: Mem, owner: Owners)
  {
    && mem.Keys == owner.Keys
    && (forall f: nat {:trigger OwnedOk(mem, owner, f)} :: OwnedOk(mem, owner, f))
    && (forall d: nat, i: nat {:trigger TableOk(mem, owner, d, i)} :: TableOk(mem, owner, d, i))
    && (forall d: nat, v: nat {:trigger PageOk(mem, owner, d, v)} :: PageOk(mem, owner, d, v))
  }

  // A page allows what its table entry says: no directory entry takes anything away.
  lemma AccessIs(mem: Mem, owner: Owners, d: nat, v: nat)
    requires Wf(mem, owner) && IsDir(owner, d)
    ensures AccessTo(mem, d, v) == match Lookup(mem, d, v)
                                   case None => None
                                   case Some(e) => Some(Access(Writable(e), UserMode(e)))
  {
    assert TableOk(mem, owner, d, Pdx(v));
    if Lookup(mem, d, v).Some? {
      FlagBits(DirEntry(mem, d, Pdx(v)));
    }
  }

  // The bits of an entry are those of its flags.
  lemma FlagBits(e: uint)
    ensures Writable(e) <==> Flags(e) / 2 % 2 == 1
    ensures UserMode(e) <==> Flags(e) / 4 % 2 == 1
  {
    Halved(e / PGSIZE, e % PGSIZE);
    Quartered(e / PGSIZE, e % PGSIZE);
  }

  lemma Halved(q: nat, r: nat)
    ensures (4096 * q + r) / 2 % 2 == r / 2 % 2
  {
    var a, b := r / 2, r % 2;
    assert 4096 * q + r == 2 * (2048 * q + a) + b;
    Parity(1024 * q, a);
  }

  lemma Quartered(q: nat, r: nat)
    ensures (4096 * q + r) / 4 % 2 == r / 4 % 2
  {
    var a, b := r / 4, r % 4;
    Quarter(1024 * q + a, b);
    assert 4096 * q + r == 4 * (1024 * q + a) + b;
    Parity(512 * q, a);
  }

  lemma Quarter(k: nat, b: nat)
    requires b < 4
    ensures (4 * k + b) / 4 == k
  {
  }

  lemma Parity(k: nat, a: nat)
    ensures (2 * k + a) % 2 == a % 2
  {
    assert a == 2 * (a / 2) + a % 2 && 2 * k + a == 2 * (k + a / 2) + a % 2;
  }

  // ---- Steps ----

  ghost predicate SameTables(owner: Owners, mem: Mem, mem': Mem)
  {
    mem.Keys == mem'.Keys == owner.Keys &&
    forall f: nat {:trigger TableKept(owner, mem, mem', f)} :: TableKept(owner, mem, mem', f)
  }

  // Directories and tables keep their words; other frames may change.
  ghost predicate TableKept(owner: Owners, mem: Mem, mem': Mem, f: nat)
  {
    f in owner && f in mem && f in mem' && (owner[f].Dir? || owner[f].Table?) ==> mem[f] == mem'[f]
  }

  lemma LookupKept(mem: Mem, owner: Owners, mem': Mem, d: nat, v: nat)
    requires Wf(mem, owner) && SameTables(owner, mem, mem') && IsDir(owner, d)
    ensures TableAt(mem', d, v) == TableAt(mem, d, v) && DirEntry(mem', d, v) == DirEntry(mem, d, v)
    ensures Lookup(mem', d, v) == Lookup(mem, d, v)
  {
    hide Pdx;
    hide Ptx;
    hide Present;
    hide Pn;
    hide Flags;
    assert TableKept(owner, mem, mem', d) && TableOk(mem, owner, d, Pdx(v));
    if TableAt(mem, d, Pdx(v)).Some? {
      assert TableKept(owner, mem, mem', TableAt(mem, d, Pdx(v)).value);
    }
  }

  ghost predicate Idle(o: Owner) { o.Free? || o.Other? }

  // owner' differs only in frames that are idle before and after.
  ghost predicate IdleMove(owner: Owners, owner': Owners)
  {
    owner.Keys == owner'.Keys && forall f: nat {:trigger IdleAt(owner, owner', f)} :: IdleAt(owner, owner', f)
  }

  ghost predicate IdleAt(owner: Owners, owner': Owners, f: nat)
  {
    f in owner && f in owner' ==> owner'[f] == owner[f] || (Idle(owner[f]) && Idle(owner'[f]))
  }

  lemma IdleKeeps(mem: Mem, owner: Owners, mem': Mem, owner': Owners)
    requires Wf(mem, owner) && SameTables(owner, mem, mem') && IdleMove(owner, owner')
    ensures Wf(mem', owner')
  {
    hide Pdx;
    hide Ptx;
    hide Present;
    hide Pn;
    hide Flags;
    hide TableAt;
    hide Lookup;
    hide SameTables;
    assert mem'.Keys == owner'.Keys by { SameKeys(owner, mem, mem'); }
    forall f: nat ensures OwnedOk(mem', owner', f) {
      assert OwnedOk(mem, owner, f) && IdleAt(owner, owner', f);
      if f in owner && owner[f].Table? {
        LookupKept(mem, owner, mem', owner[f].dir, owner[f].index);
        assert IdleAt(owner, owner', owner[f].dir);
      }
      if f in owner && owner[f].Page? {
        LookupKept(mem, owner, mem', owner[f].dir, owner[f].page);
        assert IdleAt(owner, owner', owner[f].dir);
      }
    }
    forall d: nat, i: nat ensures TableOk(mem', owner', d, i) {
      assert TableOk(mem, owner, d, i) && IdleAt(owner, owner', d);
      if IsDir(owner, d) {
        LookupKept(mem, owner, mem', d, i);
        if TableAt(mem, d, i).Some? {
          assert IdleAt(owner, owner', TableAt(mem, d, i).value);
        }
      }
    }
    forall d: nat, v: nat ensures PageOk(mem', owner', d, v) {
      assert PageOk(mem, owner, d, v) && IdleAt(owner, owner', d);
      if IsDir(owner, d) {
        LookupKept(mem, owner, mem', d, v);
        if v < UPAGES && Lookup(mem, d, v).Some? {
          assert IdleAt(owner, owner', Pn(Lookup(mem, d, v).value));
        }
      }
    }
  }

  lemma WfKeys(mem: Mem, owner: Owners)
    requires Wf(mem, owner)
    ensures mem.Keys == owner.Keys
  {
  }

  lemma SameKeys(owner: Owners, mem: Mem, mem': Mem)
    requires SameTables(owner, mem, mem')
    ensures mem'.Keys == owner.Keys
  {
  }

  // ---- A new table ----

  ghost predicate Blank(mem: Mem, t: nat)
  {
    t in mem && forall j | 0 <= j < ENTRIES :: !Present(mem[t][j])
  }

  // Entry i of directory d now points at the blank frame t.
  ghost predicate TableAdded(mem: Mem, owner: Owners, d: nat, i: nat, t: nat, e: uint, mem': Mem, owner': Owners)
  {
    && Wf(mem, owner) && IsDir(owner, d) && d in mem && i < ENTRIES && TableAt(mem, d, i).None?
    && t in owner && owner[t].Other? && Blank(mem, t) && Present(e) && Pn(e) == t
    && Flags(e) == PTE_P + PTE_W + PTE_U
    && mem' == mem[d := mem[d][i := e]] && owner' == owner[t := Table(d, i)]
  }

  lemma AddedLookup(mem: Mem, owner: Owners, d: nat, i: nat, t: nat, e: uint, mem': Mem, owner': Owners, d': nat,
                    v: nat)
    requires TableAdded(mem, owner, d, i, t, e, mem', owner') && IsDir(owner, d')
    ensures TableAt(mem', d', v) == if d' == d && v == i then Some(t) else TableAt(mem, d', v)
    ensures DirEntry(mem', d', v) == if d' == d && v == i then e else DirEntry(mem, d', v)
    ensures Lookup(mem', d', v) == Lookup(mem, d', v)
  {
    hide Pdx;
    hide Ptx;
    hide Present;
    hide Pn;
    hide Flags;
    assert TableOk(mem, owner, d', Pdx(v));
  }

  lemma AddTable(mem: Mem, owner: Owners, d: nat, i: nat, t: nat, e: uint, mem': Mem, owner': Owners)
    requires TableAdded(mem, owner, d, i, t, e, mem', owner')
    ensures Wf(mem', owner')
  {
    hide Pdx;
    hide Ptx;
    hide Present;
    hide Pn;
    hide Flags;
    hide TableAt;
    hide Lookup;
    hide Blank;
    forall f: nat ensures OwnedOk(mem', owner', f) {
      assert OwnedOk(mem, owner, f);
      if f in owner && owner[f].Table? {
        AddedLookup(mem, owner, d, i, t, e, mem', owner', owner[f].dir, owner[f].index);
      }
      if f in owner && owner[f].Page? {
        AddedLookup(mem, owner, d, i, t, e, mem', owner', owner[f].dir, owner[f].page);
      }
      AddedLookup(mem, owner, d, i, t, e, mem', owner', d, i);
    }
    forall d': nat, j: nat ensures TableOk(mem', owner', d', j) {
      assert TableOk(mem, owner, d', j);
      if IsDir(owner, d') {
        AddedLookup(mem, owner, d, i, t, e, mem', owner', d', j);
      }
    }
    forall d': nat, v: nat ensures PageOk(mem', owner', d', v) {
      assert PageOk(mem, owner, d', v);
      if IsDir(owner, d') {
        AddedLookup(mem, owner, d, i, t, e, mem', owner', d', v);
      }
    }
  }

  // ---- A page table entry changes ----

  ghost predicate EntrySet(mem: Mem, owner: Owners, d: nat, v: nat, t: nat, e: uint, mem': Mem)
  {
    && Wf(mem, owner) && IsDir(owner, d) && v < PAGES && TableAt(mem, d, Pdx(v)) == Some(t) && t in mem
    && mem' == mem[t := mem[t][Ptx(v) := e]]
  }

  lemma SetLookup(mem: Mem, owner: Owners, d: nat, v: nat, t: nat, e: uint, mem': Mem, d': nat, u: nat)
    requires EntrySet(mem, owner, d, v, t, e, mem') && IsDir(owner, d')
    ensures TableAt(mem', d', u) == TableAt(mem, d', u) && DirEntry(mem', d', u) == DirEntry(mem, d', u)
    ensures Lookup(mem', d', u) ==
              if d' == d && u == v then (if Present(e) then Some(e) else None) else Lookup(mem, d', u)
  {
    hide Pdx;
    hide Ptx;
    hide Present;
    hide Pn;
    hide Flags;
    assert TableOk(mem, owner, d, Pdx(v)) && TableOk(mem, owner, d', Pdx(u));
    PageParts(u, v);
  }

  // A user page appears on a frame from kalloc.
  lemma MapPage(mem: Mem, owner: Owners, d: nat, v: nat, t: nat, e: uint, mem': Mem, owner': Owners)
    requires EntrySet(mem, owner, d, v, t, e, mem') && Present(e) && v < UPAGES && Lookup(mem, d, v).None?
    requires Pn(e) in owner && owner[Pn(e)].Other? && owner' == owner[Pn(e) := Page(d, v)]
    ensures Wf(mem', owner')
  {
    hide Pdx;
    hide Ptx;
    hide Present;
    hide Pn;
    hide Flags;
    hide TableAt;
    hide Lookup;
    forall f: nat ensures OwnedOk(mem', owner', f) {
      assert OwnedOk(mem, owner, f);
      if f in owner && owner[f].Table? {
        SetLookup(mem, owner, d, v, t, e, mem', owner[f].dir, owner[f].index);
      }
      if f in owner && owner[f].Page? {
        SetLookup(mem, owner, d, v, t, e, mem', owner[f].dir, owner[f].page);
      }
      SetLookup(mem, owner, d, v, t, e, mem', d, v);
    }
    forall d': nat, u: nat ensures TableOk(mem', owner', d', u) && PageOk(mem', owner', d', u) {
      assert TableOk(mem, owner, d', u) && PageOk(mem, owner, d', u);
      if IsDir(owner, d') {
        SetLookup(mem, owner, d, v, t, e, mem', d', u);
      }
    }
  }

  // A page of the kernel part appears; it owns nothing.
  lemma MapKernel(mem: Mem, owner: Owners, d: nat, v: nat, t: nat, e: uint, mem': Mem)
    requires EntrySet(mem, owner, d, v, t, e, mem') && UPAGES <= v
    ensures Wf(mem', owner)
  {
    hide Pdx;
    hide Ptx;
    hide Present;
    hide Pn;
    hide Flags;
    hide TableAt;
    hide Lookup;
    forall f: nat ensures OwnedOk(mem', owner, f) {
      assert OwnedOk(mem, owner, f);
      if f in owner && owner[f].Table? {
        SetLookup(mem, owner, d, v, t, e, mem', owner[f].dir, owner[f].index);
      }
      if f in owner && owner[f].Page? {
        SetLookup(mem, owner, d, v, t, e, mem', owner[f].dir, owner[f].page);
      }
    }
    forall d': nat, u: nat ensures TableOk(mem', owner, d', u) && PageOk(mem', owner, d', u) {
      assert TableOk(mem, owner, d', u) && PageOk(mem, owner, d', u);
      if IsDir(owner, d') {
        SetLookup(mem, owner, d, v, t, e, mem', d', u);
      }
    }
  }

  // A user page goes, and its frame with it.
  lemma UnmapPage(mem: Mem, owner: Owners, d: nat, v: nat, t: nat, e: uint, mem': Mem, owner': Owners)
    requires EntrySet(mem, owner, d, v, t, e, mem') && !Present(e) && v < UPAGES && Lookup(mem, d, v).Some?
    requires Pn(Lookup(mem, d, v).value) in owner && owner' == owner[Pn(Lookup(mem, d, v).value) := Free]
    ensures Wf(mem', owner')
  {
    hide Pdx;
    hide Ptx;
    hide Present;
    hide Pn;
    hide Flags;
    hide TableAt;
    hide Lookup;
    assert PageOk(mem, owner, d, v);
    forall f: nat ensures OwnedOk(mem', owner', f) {
      assert OwnedOk(mem, owner, f);
      if f in owner && owner[f].Table? {
        SetLookup(mem, owner, d, v, t, e, mem', owner[f].dir, owner[f].index);
      }
      if f in owner && owner[f].Page? {
        SetLookup(mem, owner, d, v, t, e, mem', owner[f].dir, owner[f].page);
      }
    }
    forall d': nat, u: nat ensures TableOk(mem', owner', d', u) && PageOk(mem', owner', d', u) {
      assert TableOk(mem, owner, d', u) && PageOk(mem, owner, d', u);
      if IsDir(owner, d') {
        SetLookup(mem, owner, d, v, t, e, mem', d', u);
      }
    }
  }

  // ---- A directory comes and goes ----

  lemma AddDir(mem: Mem, owner: Owners, d: nat, owner': Owners)
    requires Wf(mem, owner) && d in owner && owner[d].Other? && Blank(mem, d) && owner' == owner[d := Dir]
    ensures Wf(mem, owner')
    ensures forall v: nat {:trigger Lookup(mem, d, v)} :: Lookup(mem, d, v).None?
  {
    hide Pdx;
    hide Ptx;
    hide Present;
    hide Pn;
    hide Flags;
    forall v: nat ensures Lookup(mem, d, v).None? && TableAt(mem, d, v).None? {
    }
    forall f: nat ensures OwnedOk(mem, owner', f) {
      assert OwnedOk(mem, owner, f);
    }
    forall d': nat, u: nat ensures TableOk(mem, owner', d', u) && PageOk(mem, owner', d', u) {
      assert TableOk(mem, owner, d', u) && PageOk(mem, owner, d', u);
    }
  }

  // What is left of a frame's use when directory d and its tables go.
  function Stripped(o: Owner, d: nat, f: nat): Owner
  {
    if f == d || (o.Table? && o.dir == d) then Free else o
  }

  ghost predicate StripAt(owner: Owners, owner': Owners, d: nat, f: nat)
  {
    f in owner && f in owner' ==> owner'[f] == Stripped(owner[f], d, f)
  }

  lemma DropDir(mem: Mem, owner: Owners, d: nat, mem': Mem, owner': Owners)
    requires Wf(mem, owner) && IsDir(owner, d) && owner.Keys == owner'.Keys
    requires forall f: nat {:trigger owner[f]} :: f in owner && owner[f].Page? ==> owner[f].dir != d
    requires forall f: nat {:trigger StripAt(owner, owner', d, f)} :: StripAt(owner, owner', d, f)
    requires SameTables(owner', mem, mem')
    ensures Wf(mem', owner')
  {
    hide Pdx;
    hide Ptx;
    hide Present;
    hide Pn;
    hide Flags;
    hide TableAt;
    hide Lookup;
    hide SameTables;
    SameKeys(owner', mem, mem');
    forall f: nat ensures OwnedOk(mem', owner', f) {
      assert OwnedOk(mem, owner, f) && StripAt(owner, owner', d, f);
      if f in owner && owner[f].Table? && owner[f].dir != d {
        assert StripAt(owner, owner', d, owner[f].dir);
        StripLookup(mem, owner, d, mem', owner', owner[f].dir, owner[f].index);
      }
      if f in owner && owner[f].Page? {
        assert StripAt(owner, owner', d, owner[f].dir);
        StripLookup(mem, owner, d, mem', owner', owner[f].dir, owner[f].page);
      }
    }
    forall d': nat, u: nat ensures TableOk(mem', owner', d', u) && PageOk(mem', owner', d', u) {
      assert TableOk(mem, owner, d', u) && PageOk(mem, owner, d', u) && StripAt(owner, owner', d, d');
      if IsDir(owner, d') && d' != d {
        StripLookup(mem, owner, d, mem', owner', d', u);
        if TableAt(mem, d', u).Some? {
          assert StripAt(owner, owner', d, TableAt(mem, d', u).value);
        }
        if u < UPAGES && Lookup(mem, d', u).Some? {
          assert StripAt(owner, owner', d, Pn(Lookup(mem, d', u).value));
        }
      }
    }
  }

  lemma StripLookup(mem: Mem, owner: Owners, d: nat, mem': Mem, owner': Owners, d': nat, v: nat)
    requires Wf(mem, owner) && IsDir(owner, d) && IsDir(owner, d') && d' != d && owner.Keys == owner'.Keys
    requires forall f: nat {:trigger StripAt(owner, owner', d, f)} :: StripAt(owner, owner', d, f)
    requires SameTables(owner', mem, mem')
    ensures TableAt(mem', d', v) == TableAt(mem, d', v) && DirEntry(mem', d', v) == DirEntry(mem, d', v)
    ensures Lookup(mem', d', v) == Lookup(mem, d', v)
  {
    hide Pdx;
    hide Ptx;
    hide Present;
    hide Pn;
    hide Flags;
    assert TableKept(owner', mem, mem', d') && StripAt(owner, owner', d, d') && TableOk(mem, owner, d', Pdx(v));
    if TableAt(mem, d', Pdx(v)).Some? {
      var t := TableAt(mem, d', Pdx(v)).value;
      assert TableKept(owner', mem, mem', t) && StripAt(owner, owner', d, t);
    }
  }
}
