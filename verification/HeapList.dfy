/**
 The free list of umalloc.c as a value: headers in memory, and the blocks they describe.

 Addresses are bytes and sizes count headers.  `ring` lists the free list from the static header
 `base` on, which the process layout puts below everything that sbrk returns; `blocks` holds every
 block cut out so far, free or live, and its size.
 */
module HeapList {
  import opened Rings

  datatype Header = Header(ptr: int, size: nat)

  const UNIT := 8

  type Memory = map<int, Header>
  type Blocks = map<int, nat>

  ghost predicate LinkOk(mem: Memory, ring: seq<int>, i: nat)
  {
    i < |ring| ==> ring[i] in mem && mem[ring[i]].ptr == ring[After(i, |ring|)]
  }

  ghost predicate Rises(ring: seq<int>, i: nat, j: nat) { i < j < |ring| ==> ring[i] < ring[j] }

  // Circular, address-sorted, and wrapping once, at the base.
  ghost predicate Linked(base: int, mem: Memory, ring: seq<int>)
  {
    && |ring| > 0 && ring[0] == base
    && (forall i: nat, j: nat {:trigger Rises(ring, i, j)} :: Rises(ring, i, j))
    && (forall i: nat {:trigger LinkOk(mem, ring, i)} :: LinkOk(mem, ring, i))
  }

  // Block a has the size in its header.
  ghost predicate SizeOk(base: int, mem: Memory, blocks: Blocks, a: int)
  {
    a in blocks ==> base < a && 0 < blocks[a] && a in mem && mem[a].size == blocks[a]
  }

  ghost predicate Apart(blocks: Blocks, a: int, b: int)
  {
    a in blocks && b in blocks && a < b ==> a + UNIT * blocks[a] <= b
  }

  ghost predicate FreeOk(ring: seq<int>, blocks: Blocks, i: nat) { 0 < i < |ring| ==> ring[i] in blocks }

  ghost predicate HeapOk(base: int, mem: Memory, ring: seq<int>, blocks: Blocks)
  {
    && Linked(base, mem, ring) && base in mem && mem[base].size == 0
    && (forall a {:trigger SizeOk(base, mem, blocks, a)} :: SizeOk(base, mem, blocks, a))
    && (forall a, b {:trigger Apart(blocks, a, b)} :: Apart(blocks, a, b))
    && (forall i: nat {:trigger FreeOk(ring, blocks, i)} :: FreeOk(ring, blocks, i))
  }

  // The free blocks at positions i and i+1 touch.
  ghost predicate Touch(ring: seq<int>, blocks: Blocks, i: nat)
  {
    0 < i && i + 1 < |ring| && ring[i] in blocks && ring[i] + UNIT * blocks[ring[i]] == ring[i + 1]
  }

  ghost predicate Coalesced(ring: seq<int>, blocks: Blocks)
  {
    forall i: nat {:trigger Touch(ring, blocks, i)} :: !Touch(ring, blocks, i)
  }

  // Position of the last free header below address a.
  ghost predicate Before(ring: seq<int>, k: nat, a: int)
  {
    k < |ring| && ring[k] < a && (k + 1 < |ring| ==> a < ring[k + 1])
  }

  // What malloc has handed out and not got back.
  ghost function LiveOf(ring: seq<int>, blocks: Blocks): Blocks
  {
    map a | a in blocks && a !in ring :: blocks[a]
  }

  // Byte x lies in block a.
  ghost predicate Inside(blocks: Blocks, a: int, x: int) { a in blocks && a <= x < a + UNIT * blocks[a] }

  ghost predicate Covered(blocks: Blocks, x: int) { exists a {:trigger Inside(blocks, a, x)} :: Inside(blocks, a, x) }

  // ---- A block enters the list ----

  // p->ptr = b, b->ptr = old p->ptr
  function LinkIn(mem: Memory, p: int, b: int): Memory
    requires p in mem && b in mem
  {
    mem[b := mem[b].(ptr := mem[p].ptr)][p := mem[p].(ptr := b)]
  }

  function Inserted(ring: seq<int>, k: nat, b: int): seq<int>
    requires k < |ring|
  {
    ring[..k + 1] + [b] + ring[k + 1..]
  }

  // A block that is linked in behind its predecessor may touch its two neighbours, no more.
  lemma InsertOk(base: int, mem: Memory, ring: seq<int>, blocks: Blocks, k: nat, b: int, mem': Memory, ring': seq<int>)
    requires HeapOk(base, mem, ring, blocks) && Coalesced(ring, blocks) && Before(ring, k, b) && b in blocks && b in mem
    requires ring[k] in mem
    requires mem' == LinkIn(mem, ring[k], b) && ring' == Inserted(ring, k, b)
    ensures HeapOk(base, mem', ring', blocks)
    ensures forall i: nat {:trigger Touch(ring', blocks, i)} | Touch(ring', blocks, i) :: i == k || i == k + 1
    ensures LiveOf(ring', blocks) == LiveOf(ring, blocks) - {b}
  {
    InsertMembers(ring, k, b);
    forall i: nat ensures LinkOk(mem', ring', i) {
      InsertLink(base, mem, ring, k, b, i);
    }
    forall i: nat, j: nat ensures Rises(ring', i, j) {
      var i', j' := if i <= k then i else i - 1, if j <= k then j else j - 1;
      assert Rises(ring, i', j') && Rises(ring, i', k) && Rises(ring, k + 1, j');
    }
    forall a ensures SizeOk(base, mem', blocks, a) {
      assert SizeOk(base, mem, blocks, a);
    }
    forall i: nat ensures FreeOk(ring', blocks, i) {
      assert FreeOk(ring, blocks, if i <= k then i else i - 1);
    }
    forall i: nat | Touch(ring', blocks, i) ensures i == k || i == k + 1 {
      assert !Touch(ring, blocks, if i <= k then i else i - 1);
    }
  }

  lemma InsertLink(base: int, mem: Memory, ring: seq<int>, k: nat, b: int, i: nat)
    requires Linked(base, mem, ring) && Before(ring, k, b) && b in mem && ring[k] in mem
    ensures LinkOk(LinkIn(mem, ring[k], b), Inserted(ring, k, b), i)
  {
    var j := if i <= k then i else i - 1;
    assert LinkOk(mem, ring, j) && LinkOk(mem, ring, k);
    assert Rises(ring, j, k) && Rises(ring, k, j) && Rises(ring, k + 1, j);
  }

  lemma InsertMembers(ring: seq<int>, k: nat, b: int)
    requires k < |ring|
    ensures forall a :: a in Inserted(ring, k, b) <==> a in ring || a == b
  {
    assert ring == ring[..k + 1] + ring[k + 1..];
  }

  // ---- Two touching neighbours become one ----

  function MergeMem(mem: Memory, p: int, q: int): Memory
    requires p in mem && q in mem
  {
    mem[p := Header(mem[q].ptr, mem[p].size + mem[q].size)]
  }

  function MergeBlocks(blocks: Blocks, p: int, q: int): Blocks
    requires p in blocks && q in blocks
  {
    (blocks - {q})[p := blocks[p] + blocks[q]]
  }

  function Dropped(ring: seq<int>, i: nat): seq<int>
    requires i < |ring|
  {
    ring[..i] + ring[i + 1..]
  }

  lemma MergeOk(base: int, mem: Memory, ring: seq<int>, blocks: Blocks, i: nat,
                mem': Memory, ring': seq<int>, blocks': Blocks)
    requires HeapOk(base, mem, ring, blocks) && Touch(ring, blocks, i)
    requires ring[i] in mem && ring[i + 1] in mem && ring[i + 1] in blocks
    requires mem' == MergeMem(mem, ring[i], ring[i + 1]) && ring' == Dropped(ring, i + 1)
    requires blocks' == MergeBlocks(blocks, ring[i], ring[i + 1])
    ensures HeapOk(base, mem', ring', blocks')
    ensures forall j: nat {:trigger Touch(ring', blocks', j)} | Touch(ring', blocks', j) ::
              Touch(ring, blocks, if j < i then j else j + 1)
    ensures LiveOf(ring', blocks') == LiveOf(ring, blocks)
    ensures forall x {:trigger Covered(blocks', x)} :: Covered(blocks', x) <==> Covered(blocks, x)
  {
    DropMembers(base, mem, ring, i + 1);
    assert Rises(ring, 0, i) && Rises(ring, i, i + 1);
    forall j: nat ensures LinkOk(mem', ring', j) {
      DropLink(base, mem, ring, i, j);
    }
    forall j: nat, k: nat ensures Rises(ring', j, k) {
      assert Rises(ring, if j <= i then j else j + 1, if k <= i then k else k + 1);
    }
    forall a ensures SizeOk(base, mem', blocks', a) {
      assert SizeOk(base, mem, blocks, a) && SizeOk(base, mem, blocks, ring[i]);
      assert SizeOk(base, mem, blocks, ring[i + 1]);
    }
    forall a, b ensures Apart(blocks', a, b) {
      assert Apart(blocks, a, b) && Apart(blocks, ring[i], b) && Apart(blocks, ring[i + 1], b);
      assert SizeOk(base, mem, blocks, b);
    }
    forall j: nat ensures FreeOk(ring', blocks', j) {
      assert FreeOk(ring, blocks, if j <= i then j else j + 1);
      assert j < |ring'| ==> ring'[j] in ring';
    }
    forall j: nat | Touch(ring', blocks', j) ensures Touch(ring, blocks, if j < i then j else j + 1) {
      assert Rises(ring, i, if j <= i then j else j + 1) && Rises(ring, j, i);
      assert FreeOk(ring, blocks, if j < i then j else j + 1);
    }
    forall x ensures Covered(blocks', x) <==> Covered(blocks, x) {
      MergeCovers(blocks, ring[i], ring[i + 1], x);
    }
  }

  lemma MergeCovers(blocks: Blocks, p: int, q: int, x: int)
    requires p in blocks && q in blocks && p < q && p + UNIT * blocks[p] == q
    ensures Covered(MergeBlocks(blocks, p, q), x) <==> Covered(blocks, x)
  {
    var blocks' := MergeBlocks(blocks, p, q);
    if Covered(blocks, x) {
      var a :| Inside(blocks, a, x);
      assert Inside(blocks', if a == q then p else a, x);
    }
    if Covered(blocks', x) {
      var a :| Inside(blocks', a, x);
      assert Inside(blocks, a, x) || Inside(blocks, q, x);
    }
  }

  lemma DropMembers(base: int, mem: Memory, ring: seq<int>, i: nat)
    requires Linked(base, mem, ring) && i < |ring|
    ensures forall a :: a in Dropped(ring, i) <==> a in ring && a != ring[i]
  {
    forall a ensures a in Dropped(ring, i) <==> a in ring && a != ring[i] {
      if a in ring && a != ring[i] {
        var j :| 0 <= j < |ring| && ring[j] == a;
        assert Dropped(ring, i)[if j < i then j else j - 1] == a;
      }
      if a in Dropped(ring, i) {
        var j :| 0 <= j < |ring| - 1 && Dropped(ring, i)[j] == a;
        var k := if j < i then j else j + 1;
        assert ring[k] == a && Rises(ring, i, k) && Rises(ring, k, i);
      }
    }
  }

  // With the header before the dropped one sent past it, the links are whole again.
  lemma DropLink(base: int, mem: Memory, ring: seq<int>, i: nat, j: nat)
    requires Linked(base, mem, ring) && i + 1 < |ring| && ring[i] in mem && ring[i + 1] in mem
    ensures LinkOk(MergeMem(mem, ring[i], ring[i + 1]), Dropped(ring, i + 1), j)
  {
    var k := if j <= i then j else j + 1;
    assert LinkOk(mem, ring, k) && LinkOk(mem, ring, i + 1);
    assert Rises(ring, i, k) && Rises(ring, k, i);
  }

  // ---- A block leaves the list ----

  // prevp->ptr = p->ptr
  function Unlink(mem: Memory, prev: int, p: int): Memory
    requires prev in mem && p in mem
  {
    mem[prev := mem[prev].(ptr := mem[p].ptr)]
  }

  lemma RemoveOk(base: int, mem: Memory, ring: seq<int>, blocks: Blocks, i: nat, mem': Memory, ring': seq<int>)
    requires HeapOk(base, mem, ring, blocks) && Coalesced(ring, blocks) && i + 1 < |ring|
    requires ring[i] in mem && ring[i + 1] in mem && ring[i + 1] in blocks
    requires mem' == Unlink(mem, ring[i], ring[i + 1]) && ring' == Dropped(ring, i + 1)
    ensures HeapOk(base, mem', ring', blocks) && Coalesced(ring', blocks)
    ensures LiveOf(ring', blocks) == LiveOf(ring, blocks)[ring[i + 1] := blocks[ring[i + 1]]]
  {
    DropMembers(base, mem, ring, i + 1);
    forall j: nat ensures LinkOk(mem', ring', j) {
      DropLink(base, mem, ring, i, j);
      assert LinkOk(MergeMem(mem, ring[i], ring[i + 1]), ring', j);
    }
    forall j: nat, k: nat ensures Rises(ring', j, k) {
      assert Rises(ring, if j <= i then j else j + 1, if k <= i then k else k + 1);
    }
    forall a ensures SizeOk(base, mem', blocks, a) {
      assert SizeOk(base, mem, blocks, a);
    }
    forall j: nat ensures FreeOk(ring', blocks, j) {
      assert FreeOk(ring, blocks, if j <= i then j else j + 1);
    }
    forall j: nat ensures !Touch(ring', blocks, j) {
      assert !Touch(ring, blocks, if j < i then j else j + 1) && Rises(ring, i + 1, i + 2);
      assert FreeOk(ring, blocks, i) && Apart(blocks, ring[i], ring[i + 1]) && Rises(ring, i, i + 1);
    }
  }

  // ---- The tail of a block is cut off ----

  function SplitMem(mem: Memory, p: int, n: nat): Memory
    requires p in mem && n <= mem[p].size
  {
    var t := p + UNIT * (mem[p].size - n);
    mem[p := mem[p].(size := mem[p].size - n)][t := Header(if t in mem then mem[t].ptr else 0, n)]
  }

  function SplitBlocks(blocks: Blocks, p: int, n: nat): Blocks
    requires p in blocks && n <= blocks[p]
  {
    blocks[p := blocks[p] - n][p + UNIT * (blocks[p] - n) := n]
  }

  // Nothing starts in the middle of a block.
  lemma NoneWithin(base: int, mem: Memory, ring: seq<int>, blocks: Blocks, p: int, x: int)
    requires HeapOk(base, mem, ring, blocks) && p in blocks && p < x < p + UNIT * blocks[p]
    ensures x !in blocks && x !in ring
  {
    assert Apart(blocks, p, x) && SizeOk(base, mem, blocks, p);
    forall i: nat | i < |ring| ensures ring[i] != x {
      assert FreeOk(ring, blocks, i);
    }
  }

  lemma SplitOk(base: int, mem: Memory, ring: seq<int>, blocks: Blocks, i: nat, n: nat,
                mem': Memory, blocks': Blocks)
    requires HeapOk(base, mem, ring, blocks) && Coalesced(ring, blocks) && 0 < i < |ring|
    requires ring[i] in mem && ring[i] in blocks && 0 < n < blocks[ring[i]] == mem[ring[i]].size
    requires mem' == SplitMem(mem, ring[i], n) && blocks' == SplitBlocks(blocks, ring[i], n)
    ensures HeapOk(base, mem', ring, blocks') && Coalesced(ring, blocks')
    ensures LiveOf(ring, blocks') == LiveOf(ring, blocks)[ring[i] + UNIT * (blocks[ring[i]] - n) := n]
    ensures forall x {:trigger Covered(blocks', x)} :: Covered(blocks', x) <==> Covered(blocks, x)
  {
    var p, t := ring[i], ring[i] + UNIT * (blocks[ring[i]] - n);
    NoneWithin(base, mem, ring, blocks, p, t);
    forall j: nat ensures LinkOk(mem', ring, j) {
      assert LinkOk(mem, ring, j);
    }
    forall a ensures SizeOk(base, mem', blocks', a) {
      assert SizeOk(base, mem, blocks, a) && SizeOk(base, mem, blocks, p);
    }
    assert Rises(ring, 0, i);
    forall a, b ensures Apart(blocks', a, b) {
      assert Apart(blocks, a, b) && Apart(blocks, p, b) && Apart(blocks, a, p) && Apart(blocks, p, a);
    }
    forall j: nat ensures FreeOk(ring, blocks', j) {
      assert FreeOk(ring, blocks, j);
    }
    forall j: nat ensures !Touch(ring, blocks', j) {
      assert !Touch(ring, blocks, j) && FreeOk(ring, blocks, i + 1) && Rises(ring, i, i + 1);
      assert Rises(ring, i, j) && Rises(ring, j, i);
      assert i + 1 < |ring| ==> Apart(blocks, p, ring[i + 1]);
    }
    forall x ensures Covered(blocks', x) <==> Covered(blocks, x) {
      SplitCovers(blocks, p, n, x);
    }
  }

  lemma SplitCovers(blocks: Blocks, p: int, n: nat, x: int)
    requires p in blocks && 0 < n < blocks[p] && p + UNIT * (blocks[p] - n) !in blocks
    ensures Covered(SplitBlocks(blocks, p, n), x) <==> Covered(blocks, x)
  {
    var blocks' := SplitBlocks(blocks, p, n);
    var t := p + UNIT * (blocks[p] - n);
    if Covered(blocks, x) {
      var a :| Inside(blocks, a, x);
      assert Inside(blocks', a, x) || Inside(blocks', t, x);
    }
    if Covered(blocks', x) {
      var a :| Inside(blocks', a, x);
      assert Inside(blocks, if a == t then p else a, x);
    }
  }

  // ---- sbrk provides a block ----

  // [b, b + n units) lies above the base and clear of every block.
  ghost predicate Clear(base: int, blocks: Blocks, b: int, n: nat)
  {
    base < b && forall a {:trigger ClearOf(blocks, b, n, a)} :: ClearOf(blocks, b, n, a)
  }

  ghost predicate ClearOf(blocks: Blocks, b: int, n: nat, a: int)
  {
    a in blocks ==> a + UNIT * blocks[a] <= b || b + UNIT * n <= a
  }

  lemma ObtainOk(base: int, mem: Memory, ring: seq<int>, blocks: Blocks, b: int, n: nat, mem': Memory, blocks': Blocks)
    requires HeapOk(base, mem, ring, blocks) && Coalesced(ring, blocks) && 0 < n && Clear(base, blocks, b, n)
    requires mem' == mem[b := Header(if b in mem then mem[b].ptr else 0, n)] && blocks' == blocks[b := n]
    ensures HeapOk(base, mem', ring, blocks') && Coalesced(ring, blocks') && b !in blocks && b !in ring
    ensures LiveOf(ring, blocks') == LiveOf(ring, blocks)[b := n]
    ensures forall x {:trigger Covered(blocks', x)} ::
              Covered(blocks', x) <==> Covered(blocks, x) || b <= x < b + UNIT * n
  {
    assert ClearOf(blocks, b, n, b) && SizeOk(base, mem, blocks, b);
    forall j: nat ensures (j < |ring| ==> ring[j] != b) && LinkOk(mem', ring, j) && FreeOk(ring, blocks', j) {
      assert LinkOk(mem, ring, j) && FreeOk(ring, blocks, j);
    }
    forall a ensures SizeOk(base, mem', blocks', a) {
      assert SizeOk(base, mem, blocks, a);
    }
    forall a, c ensures Apart(blocks', a, c) {
      assert Apart(blocks, a, c) && ClearOf(blocks, b, n, a) && ClearOf(blocks, b, n, c);
      assert SizeOk(base, mem, blocks, a) && SizeOk(base, mem, blocks, c);
    }
    forall j: nat ensures !Touch(ring, blocks', j) {
      assert !Touch(ring, blocks, j) && FreeOk(ring, blocks, j);
    }
    forall x ensures Covered(blocks', x) <==> Covered(blocks, x) || b <= x < b + UNIT * n {
      if Covered(blocks', x) {
        var a :| Inside(blocks', a, x);
        assert a == b || Inside(blocks, a, x);
      }
      if Covered(blocks, x) {
        var a :| Inside(blocks, a, x);
        assert Inside(blocks', a, x);
      }
      if b <= x < b + UNIT * n {
        assert Inside(blocks', b, x);
      }
    }
  }
}
