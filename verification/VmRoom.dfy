/** How many frames an address space takes: pages, and the tables that are missing for them. */
module VmRoom {
  import opened Bytes
  import opened PageTables

  ghost function FreeFrames(owner: Owners): set<nat> { set f | f in owner && owner[f].Free? }

  // The frames that kalloc can still hand out.
  ghost function Room(owner: Owners): nat { |FreeFrames(owner)| }

  lemma RoomTaken(owner: Owners, f: nat, o: Owner)
    requires f in owner && owner[f].Free? && !o.Free?
    ensures Room(owner[f := o]) == Room(owner) - 1
  {
    assert FreeFrames(owner[f := o]) == FreeFrames(owner) - {f};
  }

  lemma RoomKept(owner: Owners, f: nat, o: Owner)
    requires f in owner && !owner[f].Free? && !o.Free?
    ensures Room(owner[f := o]) == Room(owner)
  {
    assert FreeFrames(owner[f := o]) == FreeFrames(owner);
  }

  lemma NoRoom(owner: Owners)
    ensures (forall f :: f in owner ==> !owner[f].Free?) <==> Room(owner) == 0
  {
    if Room(owner) == 0 {
      forall f | f in owner ensures !owner[f].Free? {
        assert f !in FreeFrames(owner);
      }
    } else {
      var f :| f in FreeFrames(owner);
    }
  }

  // Directory entry i is used by pages [a, b).
  predicate InSpan(i: nat, a: nat, b: nat) { a < b && Pdx(a) <= i <= Pdx(b - 1) }

  // The directory entries that pages [a, b) use.
  function Spanned(a: nat, b: nat): int { if a < b then Pdx(b - 1) - Pdx(a) + 1 else 0 }

  // The tables that directory d does not have for pages [a, b).
  ghost function Missing(mem: Mem, d: nat, a: nat, b: nat): nat
    decreases b
  {
    if b <= a then 0
    else Missing(mem, d, a, b - 1) + if TableAt(mem, d, Pdx(b - 1)).None? && !InSpan(Pdx(b - 1), a, b - 1) then 1 else 0
  }

  ghost predicate TabledAt(mem: Mem, mem': Mem, d: nat, a: nat, b: nat, i: nat)
  {
    TableAt(mem', d, i).Some? <==> TableAt(mem, d, i).Some? || InSpan(i, a, b)
  }

  // Directory d has gained the tables for pages [a, b), and no others.
  ghost predicate Tabled(mem: Mem, mem': Mem, d: nat, a: nat, b: nat)
  {
    forall i: nat {:trigger TabledAt(mem, mem', d, a, b, i)} :: TabledAt(mem, mem', d, a, b, i)
  }

  lemma TabledNone(mem: Mem, mem': Mem, d: nat, a: nat, b: nat)
    requires b <= a && forall i: nat :: TableAt(mem', d, i).Some? <==> TableAt(mem, d, i).Some?
    ensures Tabled(mem, mem', d, a, b)
  {
    hide TableAt;
  }

  lemma TabledTrans(mem0: Mem, mem1: Mem, mem2: Mem, d: nat, a: nat, b: nat, c: nat)
    requires a <= b <= c && Tabled(mem0, mem1, d, a, b) && Tabled(mem1, mem2, d, b, c)
    ensures Tabled(mem0, mem2, d, a, c)
  {
    hide TableAt;
    forall i: nat ensures TabledAt(mem0, mem2, d, a, c, i) {
      assert TabledAt(mem0, mem1, d, a, b, i) && TabledAt(mem1, mem2, d, b, c, i);
      SpanJoin(i, a, b, c);
    }
  }

  lemma SpanJoin(i: nat, a: nat, b: nat, c: nat)
    requires a <= b <= c
    ensures InSpan(i, a, c) <==> InSpan(i, a, b) || InSpan(i, b, c)
  {
  }

  // Tables made for pages [a, b) are there for pages [b, c).
  lemma {:induction false} MissingJoin(mem0: Mem, mem1: Mem, d: nat, a: nat, b: nat, c: nat)
    requires a <= b <= c && Tabled(mem0, mem1, d, a, b)
    ensures Missing(mem0, d, a, c) == Missing(mem0, d, a, b) + Missing(mem1, d, b, c)
    decreases c
  {
    hide TableAt;
    hide Pdx;
    if b < c {
      MissingJoin(mem0, mem1, d, a, b, c - 1);
      var i := Pdx(c - 1);
      assert TabledAt(mem0, mem1, d, a, b, i);
      SpanJoin(i, a, b, c - 1);
    }
  }

  lemma {:induction false} MissingGrows(mem: Mem, d: nat, a: nat, b: nat, c: nat)
    requires b <= c
    ensures Missing(mem, d, a, b) <= Missing(mem, d, a, c)
    decreases c
  {
    if b < c { MissingGrows(mem, d, a, b, c - 1); }
  }

  // A directory without any of the tables is missing one for each entry.
  lemma {:induction false} MissingAll(mem: Mem, d: nat, a: nat, b: nat)
    requires forall i: nat | InSpan(i, a, b) :: TableAt(mem, d, i).None?
    ensures Missing(mem, d, a, b) == Spanned(a, b)
    decreases b
  {
    hide TableAt;
    if a < b {
      assert InSpan(Pdx(b - 1), a, b);
      MissingAll(mem, d, a, b - 1);
    }
  }

  // What is missing depends on which tables there are.
  lemma MissingSame(mem: Mem, mem': Mem, d: nat, a: nat, b: nat)
    requires Tabled(mem, mem', d, 0, 0)
    ensures Missing(mem', d, a, b) == Missing(mem, d, a, b)
    decreases b
  {
    hide TableAt;
    hide Pdx;
    if a < b {
      MissingSame(mem, mem', d, a, b - 1);
      assert TabledAt(mem, mem', d, 0, 0, Pdx(b - 1));
    }
  }

  lemma TabledAfter(mem0: Mem, mem1: Mem, mem2: Mem, d: nat, a: nat, b: nat)
    requires Tabled(mem0, mem1, d, 0, 0) && Tabled(mem1, mem2, d, a, b)
    ensures Tabled(mem0, mem2, d, a, b)
  {
    hide TableAt;
    forall i: nat ensures TabledAt(mem0, mem2, d, a, b, i) {
      assert TabledAt(mem0, mem1, d, 0, 0, i) && TabledAt(mem1, mem2, d, a, b, i);
    }
  }

  lemma TabledThen(mem0: Mem, mem1: Mem, mem2: Mem, d: nat, a: nat, b: nat)
    requires Tabled(mem0, mem1, d, a, b) && Tabled(mem1, mem2, d, 0, 0)
    ensures Tabled(mem0, mem2, d, a, b)
  {
    hide TableAt;
    forall i: nat ensures TabledAt(mem0, mem2, d, a, b, i) {
      assert TabledAt(mem0, mem1, d, a, b, i) && TabledAt(mem1, mem2, d, 0, 0, i);
    }
  }
}
