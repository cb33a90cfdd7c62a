/**
 The user-level allocator: free, morecore and malloc over the free list of HeapList.

 Live blocks belong to their users, who keep away from the headers.  sbrk is an argument: the region
 it grants, if it is called and grants one.
 */
module Umalloc {

  import opened Bytes
  import opened HeapList
  import opened Rings

  const NULL := 0
  const CORE := 4096
  const INT_LIMIT := 0x8000_0000

  // nbytes + 7 wraps at 32 bits.
  function Units(nbytes: uint): (n: nat)
    ensures 0 < n
  {
    UAdd(nbytes, UNIT - 1) / UNIT + 1
  }

  // The block malloc cuts holds the bytes asked for, unless the rounding wrapped.
  lemma UnitsHold(nbytes: uint)
    ensures UNIT * (Units(nbytes) - 1) >= nbytes <==> nbytes <= UINT_LIMIT - UNIT
    ensures nbytes <= UINT_LIMIT - UNIT ==> UNIT * (Units(nbytes) - 1) < nbytes + UNIT
  {
    UAddWraps(nbytes, UNIT - 1);
  }

  function Grow(n: nat): nat { if n < CORE then CORE else n }

  // nu * sizeof(Header) reaches sbrk, which takes an int, unchanged for exactly these requests.
  lemma GrowthFits(nbytes: uint)
    ensures UNIT * Grow(Units(nbytes)) < INT_LIMIT <==> nbytes <= INT_LIMIT - 2 * UNIT || nbytes > UINT_LIMIT - UNIT
  {
    UAddWraps(nbytes, UNIT - 1);
  }

  // Free block i has room for n units.
  ghost predicate Fits(ring: seq<int>, blocks: Blocks, i: nat, n: nat)
  {
    0 < i < |ring| && ring[i] in blocks && n <= blocks[ring[i]]
  }

  ghost predicate HasFit(ring: seq<int>, blocks: Blocks, n: nat)
  {
    exists i: nat {:trigger Fits(ring, blocks, i, n)} :: Fits(ring, blocks, i, n)
  }

  // That is, some free block on the list has at least n units.
  lemma HasFitIs(ring: seq<int>, blocks: Blocks, n: nat)
    ensures HasFit(ring, blocks, n) <==> exists i :: 0 < i < |ring| && ring[i] in blocks && blocks[ring[i]] >= n
  {
    if i :| 0 < i < |ring| && ring[i] in blocks && blocks[ring[i]] >= n {
      assert Fits(ring, blocks, i, n);
    }
  }

  // ---- free ----

  // The test that ends the search in free.
  predicate StopsAt(p: int, next: int, bp: int)
  {
    (bp > p && bp < next) || (p >= next && (bp > p || bp < next))
  }

  lemma StopIff(base: int, mem: Memory, ring: seq<int>, j: nat, bp: int)
    requires Linked(base, mem, ring) && j < |ring| && base < bp && ring[j] in mem
    ensures StopsAt(ring[j], mem[ring[j]].ptr, bp) <==> Before(ring, j, bp)
    ensures mem[ring[j]].ptr == ring[After(j, |ring|)]
  {
    assert LinkOk(mem, ring, j) && Rises(ring, j, j + 1) && Rises(ring, 0, j);
  }

  lemma {:induction false} Spot(ring: seq<int>, n: nat, bp: int) returns (k: nat)
    requires 0 < n <= |ring| && ring[0] < bp && bp !in ring
    requires n < |ring| ==> bp < ring[n]
    ensures Before(ring, k, bp)
  {
    if ring[n - 1] < bp {
      k := n - 1;
    } else {
      k := Spot(ring, n - 1, bp);
    }
  }

  // The links and sizes free leaves.
  function FreeMem(mem: Memory, p: int, bp: int): Memory
    requires p in mem && bp in mem && mem[p].ptr in mem
  {
    var next := mem[p].ptr;
    var m := if bp + UNIT * mem[bp].size == next
             then mem[bp := Header(mem[next].ptr, mem[bp].size + mem[next].size)]
             else mem[bp := mem[bp].(ptr := next)];
    if p + UNIT * m[p].size == bp then m[p := Header(m[bp].ptr, m[p].size + m[bp].size)] else m[p := m[p].(ptr := bp)]
  }

  // What one call leaves: the list whole and coalesced, one block less live, the same bytes covered.
  ghost predicate Freed(base: int, ring: seq<int>, blocks: Blocks, bp: int, p: int, mem': Memory, ring': seq<int>,
                        blocks': Blocks)
    requires bp in blocks
  {
    && HeapOk(base, mem', ring', blocks') && Coalesced(ring', blocks') && p in ring'
    && LiveOf(ring', blocks') == LiveOf(ring, blocks) - {bp}
    && (forall x {:trigger Covered(blocks', x)} :: Covered(blocks', x) <==> Covered(blocks, x))
    && HasFit(ring', blocks', blocks[bp])
  }

  // Free blocks touch only at positions from lo up to hi.
  ghost predicate TouchWithin(ring: seq<int>, blocks: Blocks, lo: nat, hi: nat)
  {
    forall i: nat {:trigger Touch(ring, blocks, i)} :: Touch(ring, blocks, i) ==> lo <= i < hi
  }

  // The state after position j has swallowed its neighbour, if they touch.
  ghost predicate Joined(base: int, mem: Memory, ring: seq<int>, blocks: Blocks, lo: nat, j: nat,
                         mem': Memory, ring': seq<int>, blocks': Blocks)
  {
    && HeapOk(base, mem', ring', blocks') && TouchWithin(ring', blocks', lo, j)
    && j < |ring'| && j < |ring| && ring'[..j + 1] == ring[..j + 1]
    && LiveOf(ring', blocks') == LiveOf(ring, blocks)
    && (forall x {:trigger Covered(blocks', x)} :: Covered(blocks', x) <==> Covered(blocks, x))
    && (forall n: nat {:trigger HasFit(ring', blocks', n)} :: HasFit(ring, blocks, n) ==> HasFit(ring', blocks', n))
    && (if Touch(ring, blocks, j)
        then ring[j] in mem && ring[j + 1] in mem && mem' == MergeMem(mem, ring[j], ring[j + 1])
        else mem' == mem)
    && (forall a | a in blocks && a !in ring[j..] :: a in blocks' && blocks'[a] == blocks[a])
  }

  lemma Join(base: int, mem: Memory, ring: seq<int>, blocks: Blocks, lo: nat, j: nat)
    returns (mem': Memory, ring': seq<int>, blocks': Blocks)
    requires HeapOk(base, mem, ring, blocks) && lo <= j < |ring| && TouchWithin(ring, blocks, lo, j + 1)
    ensures Joined(base, mem, ring, blocks, lo, j, mem', ring', blocks')
  {
    mem', ring', blocks' := mem, ring, blocks;
    if Touch(ring, blocks, j) {
      assert LinkOk(mem, ring, j) && LinkOk(mem, ring, j + 1) && FreeOk(ring, blocks, j + 1);
      mem', ring' := MergeMem(mem, ring[j], ring[j + 1]), Dropped(ring, j + 1);
      blocks' := MergeBlocks(blocks, ring[j], ring[j + 1]);
      MergeOk(base, mem, ring, blocks, j, mem', ring', blocks');
      JoinFits(base, mem, ring, blocks, j, ring', blocks');
      assert ring[j..][0] == ring[j] && ring[j..][1] == ring[j + 1];
    }
  }

  lemma JoinFits(base: int, mem: Memory, ring: seq<int>, blocks: Blocks, j: nat, ring': seq<int>, blocks': Blocks)
    requires HeapOk(base, mem, ring, blocks) && Touch(ring, blocks, j) && ring[j + 1] in blocks
    requires ring' == Dropped(ring, j + 1) && blocks' == MergeBlocks(blocks, ring[j], ring[j + 1])
    ensures forall n: nat {:trigger HasFit(ring', blocks', n)} :: HasFit(ring, blocks, n) ==> HasFit(ring', blocks', n)
  {
    forall n: nat | HasFit(ring, blocks, n) ensures HasFit(ring', blocks', n) {
      var i: nat :| Fits(ring, blocks, i, n);
      assert Rises(ring, j + 1, i) && Rises(ring, i, j + 1) && Rises(ring, j, i) && Rises(ring, i, j);
      assert Fits(ring', blocks', if i <= j then i else i - 1, n);
    }
  }

  lemma FreeKeeps(base: int, mem: Memory, ring: seq<int>, blocks: Blocks, k: nat, bp: int)
    returns (ring': seq<int>, blocks': Blocks)
    requires HeapOk(base, mem, ring, blocks) && Coalesced(ring, blocks) && Before(ring, k, bp)
    requires bp in blocks && bp in mem && ring[k] in mem && mem[ring[k]].ptr in mem
    ensures Freed(base, ring, blocks, bp, ring[k], FreeMem(mem, ring[k], bp), ring', blocks')
  {
    hide HeapOk;
    hide Coalesced;
    hide LiveOf;
    hide Covered;
    hide FreeMem;
    var mem1, ring1 := LinkIn(mem, ring[k], bp), Inserted(ring, k, bp);
    InsertOk(base, mem, ring, blocks, k, bp, mem1, ring1);
    var mem2, ring2, blocks2 := Join(base, mem1, ring1, blocks, k, k + 1);
    var mem3, ring3, blocks3 := Join(base, mem2, ring2, blocks2, k, k);
    assert Fits(ring1, blocks, k + 1, blocks[bp]);
    FreeMemIs(base, mem, ring, blocks, k, bp, ring1, mem2, ring2, blocks2, mem3, ring3, blocks3);
    NoTouch(ring3, blocks3, k);
    assert ring3[..k + 1][k] == ring2[..k + 1][k] == ring2[..k + 2][k] == ring1[..k + 2][k] == ring[k];
    ring', blocks' := ring3, blocks3;
  }

  lemma NoTouch(ring: seq<int>, blocks: Blocks, k: nat)
    requires TouchWithin(ring, blocks, k, k)
    ensures Coalesced(ring, blocks)
  {
  }

  lemma FreeMemIs(base: int, mem: Memory, ring: seq<int>, blocks: Blocks, k: nat, bp: int, ring1: seq<int>,
                  mem2: Memory, ring2: seq<int>, blocks2: Blocks, mem3: Memory, ring3: seq<int>, blocks3: Blocks)
    requires HeapOk(base, mem, ring, blocks) && Before(ring, k, bp)
    requires bp in blocks && bp in mem && ring[k] in mem && mem[ring[k]].ptr in mem
    requires ring1 == Inserted(ring, k, bp)
    requires Joined(base, LinkIn(mem, ring[k], bp), ring1, blocks, k, k + 1, mem2, ring2, blocks2)
    requires Joined(base, mem2, ring2, blocks2, k, k, mem3, ring3, blocks3)
    ensures mem3 == FreeMem(mem, ring[k], bp)
  {
    hide LiveOf;
    hide Covered;
    hide HasFit;
    hide TouchWithin;
    assert LinkOk(mem, ring, k) && SizeOk(base, mem, blocks, bp) && Rises(ring, 0, k) && Rises(ring, k, k + 1);
    assert Rises(ring, 0, k + 1);
    assert ring2[..k + 2][k] == ring1[..k + 2][k] && ring2[..k + 2][k + 1] == ring1[..k + 2][k + 1];
    assert FreeOk(ring, blocks, k) && SizeOk(base, mem, blocks, ring[k]);
    var above := ring1[k + 1..];
    forall i | 0 <= i < |above| ensures above[i] != ring[k] {
      if i > 0 {
        assert above[i] == ring[k + i] && Rises(ring, k, k + i);
      }
    }
  }

  // ---- malloc ----

  // k steps round the list from position f.
  function At(f: nat, k: nat, n: nat): (i: nat)
    requires f < n && k <= n
    ensures i < n
  {
    if f + k < n then f + k else f + k - n
  }

  ghost predicate TooSmall(ring: seq<int>, blocks: Blocks, f: nat, k: nat, n: nat)
  {
    f < |ring| && k <= |ring| ==> !Fits(ring, blocks, At(f, k, |ring|), n)
  }

  // The search from freep at position f has gone `seen` steps: prevp and p are there, and nothing so far fits.
  ghost predicate Searched(ring: seq<int>, blocks: Blocks, freep: int, n: nat, f: nat, seen: nat, prevp: int, p: int)
  {
    && f < |ring| && ring[f] == freep && seen < |ring|
    && prevp == ring[At(f, seen, |ring|)] && p == ring[At(f, seen + 1, |ring|)]
    && forall k: nat {:trigger TooSmall(ring, blocks, f, k, n)} | 0 < k <= seen :: TooSmall(ring, blocks, f, k, n)
  }

  ghost predicate FoundAt(ring: seq<int>, blocks: Blocks, freep: int, n: nat, b: int, freep': int, f: nat, k: nat)
  {
    && f < |ring| && ring[f] == freep && 0 < k <= |ring| && freep' == ring[At(f, k - 1, |ring|)]
    && (forall j: nat {:trigger TooSmall(ring, blocks, f, j, n)} | 0 < j < k :: TooSmall(ring, blocks, f, j, n))
    && Fits(ring, blocks, At(f, k, |ring|), n)
    && b == ring[At(f, k, |ring|)] + UNIT * (blocks[ring[At(f, k, |ring|)]] - n)
  }

  // b is at the end of the first block behind freep with room for n units, and freep' is the header before that block.
  ghost predicate NextFit(ring: seq<int>, blocks: Blocks, freep: int, n: nat, b: int, freep': int)
  {
    exists f: nat, k: nat :: FoundAt(ring, blocks, freep, n, b, freep', f, k)
  }

  lemma Found(ring: seq<int>, blocks: Blocks, freep: int, n: nat, f: nat, seen: nat, prevp: int, p: int)
    requires Searched(ring, blocks, freep, n, f, seen, prevp, p) && Fits(ring, blocks, At(f, seen + 1, |ring|), n)
    ensures p in blocks && NextFit(ring, blocks, freep, n, p + UNIT * (blocks[p] - n), prevp) && HasFit(ring, blocks, n)
    ensures var i := At(f, seen, |ring|); i + 1 < |ring| && prevp == ring[i] && p == ring[i + 1]
    ensures Fits(ring, blocks, At(f, seen, |ring|) + 1, n)
  {
    assert FoundAt(ring, blocks, freep, n, p + UNIT * (blocks[p] - n), prevp, f, seen + 1);
  }

  lemma SearchOn(ring: seq<int>, blocks: Blocks, freep: int, n: nat, f: nat, seen: nat, prevp: int, p: int)
    requires Searched(ring, blocks, freep, n, f, seen, prevp, p) && !Fits(ring, blocks, At(f, seen + 1, |ring|), n)
    ensures seen + 1 < |ring| ==>
              Searched(ring, blocks, freep, n, f, seen + 1, p, ring[After(At(f, seen + 1, |ring|), |ring|)])
    ensures seen + 1 == |ring| ==> !HasFit(ring, blocks, n)
  {
    assert TooSmall(ring, blocks, f, seen + 1, n);
    if seen + 1 == |ring| {
      CircleDone(ring, blocks, f, n);
    }
  }

  // A full circle that finds nothing has seen the whole list.
  lemma CircleDone(ring: seq<int>, blocks: Blocks, f: nat, n: nat)
    requires f < |ring|
    requires forall k: nat {:trigger TooSmall(ring, blocks, f, k, n)} | 0 < k <= |ring| ::
               TooSmall(ring, blocks, f, k, n)
    ensures !HasFit(ring, blocks, n)
  {
    forall i: nat ensures !Fits(ring, blocks, i, n) {
      if i < |ring| {
        assert TooSmall(ring, blocks, f, if i > f then i - f else i - f + |ring|, n);
      }
    }
  }

  // What the search reads at step k.
  lemma StepReads(base: int, mem: Memory, ring: seq<int>, blocks: Blocks, f: nat, k: nat, n: nat)
    requires HeapOk(base, mem, ring, blocks) && f < |ring| && 0 < k <= |ring| && 0 < n
    ensures var p := ring[At(f, k, |ring|)];
            && p in mem && (n <= mem[p].size <==> Fits(ring, blocks, At(f, k, |ring|), n))
            && (p in blocks ==> mem[p].size == blocks[p])
            && (p == ring[f] <==> k == |ring|)
            && mem[p].ptr == ring[After(At(f, k, |ring|), |ring|)] && mem[p].ptr in mem
  {
    var i := At(f, k, |ring|);
    var j := After(i, |ring|);
    assert LinkOk(mem, ring, i) && LinkOk(mem, ring, j);
    assert FreeOk(ring, blocks, i) && SizeOk(base, mem, blocks, ring[i]);
    assert Rises(ring, i, f) && Rises(ring, f, i);
  }

  lemma SearchReads(base: int, mem: Memory, freep: int, ring: seq<int>, blocks: Blocks, f: nat, seen: nat, n: nat,
                    prevp: int, p: int)
    requires HeapOk(base, mem, ring, blocks) && Searched(ring, blocks, freep, n, f, seen, prevp, p) && 0 < n
    ensures p in mem && (n <= mem[p].size <==> Fits(ring, blocks, At(f, seen + 1, |ring|), n))
    ensures p == freep <==> seen + 1 == |ring|
    ensures mem[p].ptr == ring[After(At(f, seen + 1, |ring|), |ring|)] && mem[p].ptr in mem
  {
    StepReads(base, mem, ring, blocks, f, seen + 1, n);
  }

  // Carving n units out of the free block at position i + 1 makes one more block live.
  ghost predicate Carved(base: int, ring: seq<int>, blocks: Blocks, i: nat, n: nat, b: int, mem': Memory,
                         ring': seq<int>, blocks': Blocks)
    requires i < |ring|
  {
    && HeapOk(base, mem', ring', blocks') && Coalesced(ring', blocks') && ring[i] in ring'
    && base < b && b !in LiveOf(ring, blocks) && LiveOf(ring', blocks') == LiveOf(ring, blocks)[b := n]
    && (forall x {:trigger Covered(blocks', x)} :: Covered(blocks', x) <==> Covered(blocks, x))
  }

  function CarveMem(mem: Memory, prev: int, p: int, n: nat): Memory
    requires prev in mem && p in mem && n <= mem[p].size
  {
    if mem[p].size == n then Unlink(mem, prev, p) else SplitMem(mem, p, n)
  }

  lemma CarveKeeps(base: int, mem: Memory, ring: seq<int>, blocks: Blocks, i: nat, n: nat)
    returns (ring': seq<int>, blocks': Blocks)
    requires HeapOk(base, mem, ring, blocks) && Coalesced(ring, blocks) && Fits(ring, blocks, i + 1, n) && 0 < n
    requires ring[i] in mem && ring[i + 1] in mem && mem[ring[i + 1]].size == blocks[ring[i + 1]]
    ensures Carved(base, ring, blocks, i, n, ring[i + 1] + UNIT * (blocks[ring[i + 1]] - n),
                   CarveMem(mem, ring[i], ring[i + 1], n), ring', blocks')
  {
    hide Covered;
    var p := ring[i + 1];
    assert Rises(ring, 0, i + 1) && Rises(ring, i, i + 1);
    if blocks[p] == n {
      ring', blocks' := Dropped(ring, i + 1), blocks;
      RemoveOk(base, mem, ring, blocks, i, Unlink(mem, ring[i], p), ring');
      assert ring'[i] == ring[i];
    } else {
      ring', blocks' := ring, SplitBlocks(blocks, p, n);
      NoneWithin(base, mem, ring, blocks, p, p + UNIT * (blocks[p] - n));
      SplitOk(base, mem, ring, blocks, i + 1, n, SplitMem(mem, p, n), blocks');
    }
  }

  // ---- The allocator ----

  ghost predicate SameBytes(blocks: Blocks, arena: Blocks)
  {
    forall x {:trigger Covered(blocks, x)} {:trigger Covered(arena, x)} :: Covered(blocks, x) <==> Covered(arena, x)
  }

  // Everything that holds between calls.
  ghost predicate StateOk(base: int, mem: Memory, freep: int, ring: seq<int>, blocks: Blocks, live: Blocks,
                          arena: Blocks)
  {
    && 0 < base && base in mem
    && live == LiveOf(ring, blocks) && SameBytes(blocks, arena)
    && if freep == NULL then ring == [] && blocks == map[] && arena == map[]
       else HeapOk(base, mem, ring, blocks) && Coalesced(ring, blocks) && freep in ring
  }

  // Each byte from sbrk is in one block, and that block is either live or free.
  lemma Partition(base: int, mem: Memory, freep: int, ring: seq<int>, blocks: Blocks, live: Blocks, arena: Blocks,
                  x: int)
    requires StateOk(base, mem, freep, ring, blocks, live, arena)
    ensures Covered(arena, x) <==> exists a :: Inside(blocks, a, x)
    ensures forall a, b | Inside(blocks, a, x) && Inside(blocks, b, x) :: a == b
    ensures forall a | Inside(blocks, a, x) :: a in live <==> a !in ring
  {
    assert Covered(blocks, x) <==> Covered(arena, x);
    forall a, b | Inside(blocks, a, x) && Inside(blocks, b, x) ensures a == b {
      assert Apart(blocks, a, b) && Apart(blocks, b, a);
    }
  }

  // What sbrk may answer for n units: nothing, or memory the allocator does not have yet.
  ghost predicate Grantable(base: int, blocks: Blocks, sbrk: Option<int>, n: nat)
  {
    sbrk.Some? ==> Clear(base, blocks, sbrk.value, n)
  }

  lemma ArenaGrows(blocks: Blocks, arena: Blocks, base: int, b: int, n: nat, blocks': Blocks)
    requires SameBytes(blocks, arena) && Clear(base, blocks, b, n) && 0 < n
    requires forall x {:trigger Covered(blocks', x)} ::
               Covered(blocks', x) <==> Covered(blocks, x) || b <= x < b + UNIT * n
    ensures SameBytes(blocks', arena[b := n])
  {
    forall a ensures !Inside(blocks, a, b) {
      assert ClearOf(blocks, b, n, a);
    }
    assert !Covered(blocks, b) && !Covered(arena, b) && !Inside(arena, b, b);
    forall x ensures Covered(blocks', x) <==> Covered(arena[b := n], x) {
      if Covered(arena[b := n], x) {
        var a :| Inside(arena[b := n], a, x);
        assert a == b || Inside(arena, a, x);
      }
      if Covered(arena, x) {
        var a :| Inside(arena, a, x);
        assert Inside(arena[b := n], a, x);
      }
      if b <= x < b + UNIT * n {
        assert Inside(arena[b := n], b, x);
      }
    }
  }

  lemma FitsLess(ring: seq<int>, blocks: Blocks, n: nat, m: nat)
    requires HasFit(ring, blocks, n) && m <= n
    ensures HasFit(ring, blocks, m)
  {
    var i: nat :| Fits(ring, blocks, i, n);
    assert Fits(ring, blocks, i, m);
  }

  ghost function Position(ring: seq<int>, a: int): (i: nat)
    requires a in ring
    ensures i < |ring| && ring[i] == a
  {
    var i: nat :| i < |ring| && ring[i] == a;
    i
  }

  // A list of the base alone.
  lemma EmptyOk(base: int, mem: Memory, ring: seq<int>, blocks: Blocks, n: nat)
    requires base in mem && mem[base] == Header(base, 0) && ring == [base] && blocks == map[]
    ensures HeapOk(base, mem, ring, blocks) && Coalesced(ring, blocks)
    ensures LiveOf(ring, blocks) == map[] && !HasFit(ring, blocks, n) && !HasFit([], blocks, n)
  {
  }

  // A live block is in memory, off the list and above the base.
  lemma LiveFacts(base: int, mem: Memory, freep: int, ring: seq<int>, blocks: Blocks, live: Blocks, arena: Blocks,
                  bp: int)
    requires StateOk(base, mem, freep, ring, blocks, live, arena) && bp in live
    ensures freep != NULL && HeapOk(base, mem, ring, blocks) && Coalesced(ring, blocks) && freep in ring
    ensures 0 < base < bp && bp in mem && bp in blocks && blocks[bp] == live[bp] && bp !in ring
  {
    assert SizeOk(base, mem, blocks, bp);
  }

  // What the header at position k and the one it points to hold.
  lemma ListFacts(base: int, mem: Memory, ring: seq<int>, blocks: Blocks, k: nat)
    requires HeapOk(base, mem, ring, blocks) && k < |ring|
    ensures base <= ring[k] && ring[k] in mem && mem[ring[k]].ptr == ring[After(k, |ring|)] && mem[ring[k]].ptr in mem
    ensures 0 < k ==> ring[k] in blocks && mem[ring[k]].size == blocks[ring[k]]
  {
    assert LinkOk(mem, ring, k) && LinkOk(mem, ring, After(k, |ring|)) && Rises(ring, 0, k);
    assert FreeOk(ring, blocks, k) && SizeOk(base, mem, blocks, ring[k]);
  }

  lemma FreedState(base: int, mem: Memory, freep: int, ring: seq<int>, blocks: Blocks, live: Blocks, arena: Blocks,
                   bp: int, p: int, mem': Memory, ring': seq<int>, blocks': Blocks)
    requires StateOk(base, mem, freep, ring, blocks, live, arena) && bp in blocks && p != NULL
    requires Freed(base, ring, blocks, bp, p, mem', ring', blocks')
    ensures StateOk(base, mem', p, ring', blocks', live - {bp}, arena)
  {
    hide Coalesced;
    hide LiveOf;
    hide Covered;
  }

  lemma CarvedState(base: int, mem: Memory, freep: int, ring: seq<int>, blocks: Blocks, live: Blocks, arena: Blocks,
                    i: nat, n: nat, b: int, mem': Memory, ring': seq<int>, blocks': Blocks)
    requires StateOk(base, mem, freep, ring, blocks, live, arena) && i < |ring| && ring[i] != NULL
    requires Carved(base, ring, blocks, i, n, b, mem', ring', blocks')
    ensures StateOk(base, mem', ring[i], ring', blocks', live[b := n], arena) && b !in live && base < b
  {
    hide Coalesced;
    hide LiveOf;
    hide Covered;
  }

  class Heap {
    const base: int
    var mem: Memory
    var freep: int
    ghost var ring: seq<int>
    ghost var blocks: Blocks
    ghost var live: Blocks   // what users hold
    ghost var arena: Blocks  // what sbrk has granted

    ghost predicate Valid()
      reads this
    {
      StateOk(base, mem, freep, ring, blocks, live, arena)
    }

    constructor (base: int)
      requires 0 < base
      ensures Valid() && live == map[] && arena == map[] && this.base == base
    {
      this.base := base;
      mem, freep := map[base := Header(0, 0)], NULL;
      ring, blocks, live, arena := [], map[], map[], map[];
    }

    // The walk in free: it ends at the last free header below bp.
    method FindSpot(bp: int) returns (p: int, ghost k: nat)
      requires HeapOk(base, mem, ring, blocks) && freep in ring && base < bp && bp !in ring
      ensures Before(ring, k, bp) && p == ring[k]
    {
      k := Spot(ring, |ring|, bp);
      p := freep;
      ghost var j: nat :| j < |ring| && ring[j] == freep;
      assert LinkOk(mem, ring, j);
      StopIff(base, mem, ring, j, bp);
      while !StopsAt(p, mem[p].ptr, bp)
        invariant j < |ring| && p == ring[j] && p in mem
        invariant StopsAt(p, mem[p].ptr, bp) <==> Before(ring, j, bp)
        decreases if j <= k then k - j else k - j + |ring|
      {
        p := mem[p].ptr;
        StopIff(base, mem, ring, j, bp);
        j := After(j, |ring|);
        assert LinkOk(mem, ring, j);
        StopIff(base, mem, ring, j, bp);
      }
      assert Rises(ring, j + 1, k) && Rises(ring, k + 1, j);
    }

    method Free(ap: int)
      requires Valid() && ap - UNIT in live
      modifies this
      ensures Valid() && freep != NULL
      ensures live == old(live) - {ap - UNIT} && arena == old(arena)
      ensures HasFit(ring, blocks, old(live[ap - UNIT]))
      // The next search starts at the last free header below the block.
      ensures exists k: nat :: Before(old(ring), k, ap - UNIT) && freep == old(ring)[k]
    {
      hide HeapOk;
      hide Coalesced;
      hide StateOk;
      var bp := ap - UNIT;
      LiveFacts(base, mem, freep, ring, blocks, live, arena, bp);
      ghost var k;
      var p: int;
      p, k := FindSpot(bp);
      ListFacts(base, mem, ring, blocks, k);
      ghost var ring', blocks' := FreeKeeps(base, mem, ring, blocks, k, bp);
      ghost var mem' := FreeMem(mem, p, bp);
      FreedState(base, mem, freep, ring, blocks, live, arena, bp, p, mem', ring', blocks');
      Relink(p, bp);
      freep := p;
      ring, blocks, live := ring', blocks', live - {bp};
    }

    // Link bp in behind p, joining it with either neighbour it touches.
    method Relink(p: int, bp: int)
      requires p in mem && bp in mem && mem[p].ptr in mem
      modifies this`mem
      ensures mem == old(FreeMem(mem, p, bp))
    {
      var next := mem[p].ptr;
      if bp + UNIT * mem[bp].size == next {
        mem := mem[bp := Header(mem[next].ptr, mem[bp].size + mem[next].size)];
      } else {
        mem := mem[bp := mem[bp].(ptr := next)];
      }
      if p + UNIT * mem[p].size == bp {
        mem := mem[p := Header(mem[bp].ptr, mem[p].size + mem[bp].size)];
      } else {
        mem := mem[p := mem[p].(ptr := bp)];
      }
    }

    // Memory that sbrk grants goes on the list by way of free.
    method Morecore(nunits: nat, sbrk: Option<int>) returns (p: int)
      requires Valid() && freep != NULL && Grantable(base, blocks, sbrk, Grow(nunits))
      modifies this
      ensures Valid() && freep != NULL && live == old(live)
      ensures sbrk.None? ==> p == NULL && unchanged(this)
      ensures sbrk.Some? ==> p == freep && HasFit(ring, blocks, nunits)
      ensures sbrk.Some? ==> arena == old(arena)[sbrk.value := if nunits < 4096 then 4096 else nunits]
    {
      if sbrk.None? {
        return NULL;
      }
      var nu := if nunits < CORE then CORE else nunits;
      var hp := sbrk.value;
      ghost var mem0, blocks0, live0 := mem, blocks, live;
      mem := mem[hp := Header(if hp in mem then mem[hp].ptr else 0, nu)];
      blocks, live, arena := blocks[hp := nu], live[hp := nu], arena[hp := nu];
      ObtainOk(base, mem0, ring, blocks0, hp, nu, mem, blocks);
      ArenaGrows(blocks0, old(arena), base, hp, nu, blocks);
      Free(hp + UNIT);
      assert live0[hp := nu] - {hp} == live0;
      FitsLess(ring, blocks, nu, nunits);
      p := freep;
    }

    // The list starts with the base alone, pointing at itself.
    method Begin(ghost n: nat)
      requires Valid()
      modifies this
      ensures Valid() && freep != NULL
      ensures live == old(live) && blocks == old(blocks) && arena == old(arena)
      ensures HasFit(ring, blocks, n) <==> old(HasFit(ring, blocks, n))
      ensures old(freep) != NULL ==> unchanged(this)
    {
      if freep == NULL {
        mem, freep, ring := mem[base := Header(base, 0)], base, [base];
        EmptyOk(base, mem, ring, blocks, n);
      }
    }

    method Carve(prevp: int, p: int, nunits: nat, ghost i: nat) returns (r: int)
      requires Valid() && freep != NULL && i + 1 < |ring| && prevp == ring[i] && p == ring[i + 1]
      requires Fits(ring, blocks, i + 1, nunits) && 0 < nunits
      modifies this
      ensures Valid() && r != NULL && arena == old(arena)
      ensures r - UNIT !in old(live) && live == old(live)[r - UNIT := nunits]
      ensures old(p in blocks) && r == p + UNIT * (old(blocks[p]) - nunits) + UNIT && freep == prevp
    {
      hide HeapOk;
      hide Coalesced;
      hide LiveOf;
      hide SameBytes;
      hide Carved;
      ListFacts(base, mem, ring, blocks, i);
      ListFacts(base, mem, ring, blocks, i + 1);
      ghost var ring', blocks' := CarveKeeps(base, mem, ring, blocks, i, nunits);
      CarvedState(base, mem, freep, ring, blocks, live, arena, i, nunits, p + UNIT * (blocks[p] - nunits),
                  CarveMem(mem, prevp, p, nunits), ring', blocks');
      var b := p;
      if mem[p].size == nunits {
        mem := mem[prevp := mem[prevp].(ptr := mem[p].ptr)];
      } else {
        mem := mem[p := mem[p].(size := mem[p].size - nunits)];
        b := p + UNIT * mem[p].size;
        mem := mem[b := Header(if b in mem then mem[b].ptr else 0, nunits)];
      }
      freep := prevp;
      ring, blocks, live := ring', blocks', live[b := nunits];
      r := b + UNIT;
    }

    method Malloc(nbytes: uint, sbrk: Option<int>) returns (r: int, calls: nat)
      requires Valid() && UNIT * Grow(Units(nbytes)) < INT_LIMIT
      requires Grantable(base, blocks, sbrk, Grow(Units(nbytes)))
      modifies this
      ensures Valid()
      ensures calls == if old(HasFit(ring, blocks, Units(nbytes))) then 0 else 1
      ensures r == NULL <==> calls == 1 && sbrk.None?
      ensures r == NULL ==> live == old(live) && arena == old(arena)
      ensures r != NULL ==> r - UNIT !in old(live) && live == old(live)[r - UNIT := Units(nbytes)]
      ensures r != NULL ==> arena == if calls == 0 then old(arena) else old(arena)[sbrk.value := Grow(Units(nbytes))]
      // The first block behind freep that is big enough gives up its end, and the next search starts before it.
      ensures calls == 0 ==> NextFit(old(ring), old(blocks), old(freep), Units(nbytes), r - UNIT, freep)
      ensures calls == 0 <==> exists i ::
                0 < i < |old(ring)| && old(ring)[i] in old(blocks) && old(blocks)[old(ring)[i]] >= Units(nbytes)
    {
      hide HeapOk;
      hide Coalesced;
      hide LiveOf;
      hide SameBytes;
      hide HasFit;
      hide NextFit;
      var nunits := Units(nbytes);
      HasFitIs(ring, blocks, nunits);
      Begin(nunits);
      calls := 0;
      var prevp := freep;
      ghost var f: nat, seen: nat := Position(ring, freep), 0;
      StepReads(base, mem, ring, blocks, f, |ring|, nunits);
      var p := mem[prevp].ptr;
      while true
        invariant Valid() && freep != NULL && live == old(live)
        invariant Searched(ring, blocks, freep, nunits, f, seen, prevp, p) && seen < |ring|
        invariant calls <= 1 && (calls == 1 ==> HasFit(ring, blocks, nunits) && sbrk.Some?)
        invariant calls == 0 ==> blocks == old(blocks) && arena == old(arena)
        invariant calls == 0 && old(freep) != NULL ==> ring == old(ring) && freep == old(freep)
        invariant calls == 0 && old(freep) == NULL ==> !HasFit(ring, blocks, nunits)
        invariant calls == 0 ==> (HasFit(ring, blocks, nunits) <==> old(HasFit(ring, blocks, nunits)))
        invariant calls == 1 ==> !old(HasFit(ring, blocks, nunits)) && arena == old(arena)[sbrk.value := Grow(nunits)]
        decreases 1 - calls, |ring| - seen
      {
        SearchReads(base, mem, freep, ring, blocks, f, seen, nunits, prevp, p);
        if mem[p].size >= nunits {
          Found(ring, blocks, freep, nunits, f, seen, prevp, p);
          r := Carve(prevp, p, nunits, At(f, seen, |ring|));
          return;
        }
        SearchOn(ring, blocks, freep, nunits, f, seen, prevp, p);
        seen := seen + 1;
        if p == freep {
          calls := calls + 1;
          p := Morecore(nunits, sbrk);
          if p == NULL {
            return NULL, calls;
          }
          f, seen := Position(ring, freep), 0;
          StepReads(base, mem, ring, blocks, f, |ring|, nunits);
        }
        prevp := p;
        p := mem[p].ptr;
      }
    }
  }
}
