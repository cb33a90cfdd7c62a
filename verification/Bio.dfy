/** The doubly linked list of buffers of bio.c: pointers are indices, and index n is the list head. */
module MruLists {
  import opened Rings

  ghost predicate IsRing(next: seq<nat>, prev: seq<nat>, ring: seq<nat>)
  {
    && |next| == |prev| && |ring| > 0
    && (forall i | 0 <= i < |ring| :: ring[i] < |next|)
    && (forall i, j | 0 <= i < j < |ring| :: ring[i] != ring[j])
    && (forall i | 0 <= i < |ring| :: next[ring[i]] == ring[After(i, |ring|)])
    && (forall i | 0 <= i < |ring| :: prev[ring[After(i, |ring|)]] == ring[i])
  }

  function Without<T>(s: seq<T>, k: nat): seq<T>
    requires k < |s|
  {
    s[..k] + s[k + 1..]
  }

  lemma Unlink(next: seq<nat>, prev: seq<nat>, ring: seq<nat>, k: nat)
    requires IsRing(next, prev, ring) && 0 < k < |ring|
    ensures ring[k] < |next| && next[ring[k]] < |next| && prev[ring[k]] < |next|
    ensures IsRing(next[prev[ring[k]] := next[ring[k]]], prev[next[ring[k]] := prev[ring[k]]], Without(ring, k))
    ensures ring[k] !in Without(ring, k)
  {
    var b, r := ring[k], Without(ring, k);
    RingRange(next, prev, ring, k);
    var next', prev' := next[prev[b] := next[b]], prev[next[b] := prev[b]];
    forall i | 0 <= i < |r| ensures next'[r[i]] == r[After(i, |r|)] && prev'[r[After(i, |r|)]] == r[i] {
      UnlinkAt(next, prev, ring, k, i);
    }
  }

  lemma UnlinkAt(next: seq<nat>, prev: seq<nat>, ring: seq<nat>, k: nat, i: nat)
    requires IsRing(next, prev, ring) && 0 < k < |ring| && i < |ring| - 1
    ensures var b, r := ring[k], Without(ring, k);
            && b < |next| && next[b] < |next| && prev[b] < |next| && r[i] < |next| && r[After(i, |r|)] < |next|
            && next[prev[b] := next[b]][r[i]] == r[After(i, |r|)]
            && prev[next[b] := prev[b]][r[After(i, |r|)]] == r[i]
  {
    var n, r := |ring|, Without(ring, k);
    var j := if i < k then i else i + 1;
    assert After(k - 1, n) == k && prev[ring[k]] == ring[k - 1] && next[ring[k]] == ring[After(k, n)];
    assert r[i] == ring[j] && next[ring[j]] == ring[After(j, n)] && prev[ring[After(j, n)]] == ring[j];
    assert r[After(i, |r|)] == if j == k - 1 then ring[After(k, n)] else ring[After(j, n)];
  }

  lemma InsertAfterHead(next: seq<nat>, prev: seq<nat>, ring: seq<nat>, b: nat)
    requires IsRing(next, prev, ring) && b < |next| && b !in ring
    ensures ring[0] < |next| && next[ring[0]] < |next|
    ensures IsRing(next[b := next[ring[0]]][ring[0] := b], prev[b := ring[0]][next[ring[0]] := b],
                   [ring[0], b] + ring[1..])
  {
    var h, r, n := ring[0], [ring[0], b] + ring[1..], |ring|;
    assert next[h] == ring[After(0, n)];
    var next', prev' := next[b := next[h]][h := b], prev[b := h][next[h] := b];
    forall i | 0 <= i < |r|
      ensures next'[r[i]] == r[After(i, |r|)] && prev'[r[After(i, |r|)]] == r[i]
    {
      if i >= 2 {
        assert r[i] == ring[i - 1] && r[After(i, |r|)] == ring[After(i - 1, n)];
        assert next[ring[i - 1]] == ring[After(i - 1, n)] && prev[ring[After(i - 1, n)]] == ring[i - 1];
      }
    }
  }

  lemma SingletonRing(next: seq<nat>, prev: seq<nat>, n: nat)
    requires |next| == |prev| == n + 1 && next[n] == n && prev[n] == n
    ensures IsRing(next, prev, [n])
  {
  }

  lemma RingRange(next: seq<nat>, prev: seq<nat>, ring: seq<nat>, k: nat)
    requires IsRing(next, prev, ring) && 0 < k < |ring|
    ensures |next| == |prev| && forall i | 0 <= i < |ring| :: ring[i] < |next|
    ensures next[ring[k]] < |next| && prev[ring[k]] < |next| && next[ring[0]] < |next|
    ensures prev[ring[k]] == ring[k - 1] && (ring[k] != ring[0])
    ensures next[ring[k]] != ring[k] && prev[ring[k]] != ring[k]
  {
    assert After(k - 1, |ring|) == k;
  }

  lemma StillThere(ring: seq<nat>, k: nat, n: nat, ring': seq<nat>)
    requires |ring| == n + 1 && 0 < k <= n && ring[0] == n && ring' == [n, ring[k]] + Without(ring, k)[1..]
    requires forall c: nat | c <= n :: c in ring
    ensures forall c: nat | c <= n :: c in ring'
  {
    forall c: nat | c <= n ensures c in ring' {
      assert c in ring;
      var i :| 0 <= i <= n && ring[i] == c;
      if i != 0 && i != k {
        assert ring'[if i < k then i + 1 else i] == c;
      }
    }
  }

  /** The list through next and prev; `ring` is its order, from the head towards the least recently used. */
  class MruList {
    const n: nat
    const next: array<nat>
    const prev: array<nat>
    ghost var ring: seq<nat>

    ghost predicate Valid()
      reads this, next, prev
    {
      && next.Length == prev.Length == n + 1 && next != prev
      && |ring| == n + 1 && ring[0] == n
      && IsRing(next[..], prev[..], ring)
      && (forall b: nat | b <= n :: b in ring)
    }

    // binit
    constructor (n: nat)
      ensures Valid() && this.n == n && fresh(next) && fresh(prev)
      ensures forall i | 0 <= i <= n :: ring[i] == n - i
    {
      this.n := n;
      next := new nat[n + 1](i => n);
      prev := new nat[n + 1](i => n);
      new;
      hide IsRing;
      ghost var r := [n];
      SingletonRing(next[..], prev[..], n);
      for b: nat := 0 to n
        invariant next != prev && fresh(next) && fresh(prev)
        invariant |r| == b + 1 && r[0] == n
        invariant forall i | 0 < i <= b :: r[i] == b - i
        invariant IsRing(next[..], prev[..], r)
      {
        InsertAfterHead(next[..], prev[..], r, b);
        ghost var next0: seq<nat>, prev0: seq<nat> := next[..], prev[..];
        next[b] := next[n];
        prev[b] := n;
        prev[next[n]] := b;
        next[n] := b;
        assert next[..] == next0[b := next0[n]][n := b] && prev[..] == prev0[b := n][next0[n] := b];
        r := [n, b] + r[1..];
      }
      ring := r;
      forall b: nat | b <= n ensures b in ring {
        assert ring[n - b] == b;
      }
    }

    // The relinking in brelse: take b out and put it back behind the head.
    method MoveToFront(b: nat, ghost k: nat)
      requires Valid() && 0 < k <= n && ring[k] == b
      modifies this, next, prev
      ensures Valid()
      ensures ring == [n, b] + Without(old(ring), k)[1..]
      ensures ring == [n, b] + old(ring)[1..k] + old(ring)[k + 1..]
    {
      hide IsRing;
      RingRange(next[..], prev[..], ring, k);
      Unlink(next[..], prev[..], ring, k);
      InsertAfterHead(next[..][prev[b] := next[b]], prev[..][next[b] := prev[b]], Without(ring, k), b);
      prev[next[b]] := prev[b];
      next[prev[b]] := next[b];
      next[b] := next[n];
      prev[b] := n;
      prev[next[n]] := b;
      next[n] := b;
      ring := [n, b] + Without(ring, k)[1..];
      StillThere(old(ring), k, n, ring);
    }
  }
}

/**
 The buffer cache of bio.c over the disk of memide.c.

 `logical` is what the users of the cache see: the cached copy of a block if there is one, the
 disk block otherwise.  A panic is a result that leaves everything as it was.  `history` records
 the disk after every block write, since the machine may lose power after any of them.
 */
module Bio {
  import opened Bytes
  import opened MruLists
  import opened Rings

  const ROOTDEV: nat := 1

  datatype Buf = Buf(dev: nat, blockno: nat, valid: bool, dirty: bool, refcnt: nat, locked: bool, pid: int, data: Block)

  predicate Eligible(b: Buf) { b.refcnt == 0 && !b.dirty }

  // The processes that have looked the buffer up and wait for its lock.
  function Waiters(b: Buf): int { b.refcnt - if b.locked then 1 else 0 }

  predicate Holding(b: Buf, pid: int) { b.locked && b.pid == pid }

  // A valid buffer that is neither pinned nor locked agrees with the disk.
  ghost predicate BufOk(b: Buf, disk: Image)
  {
    && (b.dirty ==> b.valid)
    && (b.locked ==> b.refcnt > 0)
    && (b.valid ==> b.dev == ROOTDEV && b.blockno < |disk|)
    && (b.valid && !b.dirty && !b.locked ==> b.data == disk[b.blockno])
  }

  type Slots = map<(nat, nat), nat>

  // Every buffer with dev != 0 is found under its own key: no block has two buffers.
  ghost predicate SlotsOk(bufs: seq<Buf>, slot: Slots)
  {
    && (forall k | k in slot :: k.0 != 0 && slot[k] < |bufs| && (bufs[slot[k]].dev, bufs[slot[k]].blockno) == k)
    && (forall i | 0 <= i < |bufs| && bufs[i].dev != 0 ::
         (bufs[i].dev, bufs[i].blockno) in slot && slot[(bufs[i].dev, bufs[i].blockno)] == i)
  }

  ghost function Lookup(bufs: seq<Buf>, slot: Slots, b: nat): Option<Buf>
  {
    if (ROOTDEV, b) in slot && slot[(ROOTDEV, b)] < |bufs| then Some(bufs[slot[(ROOTDEV, b)]]) else None
  }

  // What users of the cache may rely on for block b: its logical contents, whether it is pinned,
  // and whether it is locked.
  ghost predicate BlockOk(bufs: seq<Buf>, slot: Slots, v: View, b: nat)
  {
    b < |v.disk| && |v.logical| == |v.disk| ==>
      var c := Lookup(bufs, slot, b);
      && v.logical[b] == (if c.Some? && c.value.valid then c.value.data else v.disk[b])
      && (b in v.pinned <==> c.Some? && c.value.dirty)
      && (b in v.locked <==> c.Some? && c.value.locked)
  }

  // The disk, the blocks as users see them, the blocks whose buffer carries B_DIRTY, and those
  // whose buffer some process has locked.
  datatype View = View(disk: Image, logical: Image, pinned: set<nat>, locked: set<nat>)

  ghost predicate CacheOk(bufs: seq<Buf>, slot: Slots, v: View)
  {
    && SlotsOk(bufs, slot) && |v.logical| == |v.disk|
    && (forall i | 0 <= i < |bufs| :: BufOk(bufs[i], v.disk))
    && (forall b | b in v.pinned + v.locked :: b < |v.disk|)
    && (forall b: nat {:trigger BlockOk(bufs, slot, v, b)} :: BlockOk(bufs, slot, v, b))
  }

  // Buffer i is unused and clean, and every buffer behind it on the list is not.
  ghost predicate LeastRecent(bufs: seq<Buf>, ring: seq<nat>, i: nat)
  {
    && i < |bufs| && Eligible(bufs[i])
    && exists k :: 0 < k < |ring| && ring[k] == i &&
         forall j | k < j < |ring| :: ring[j] < |bufs| && !Eligible(bufs[ring[j]])
  }

  // A process has looked up and locked the buffer of block b: it is buffer i, which had the block or
  // was unused.
  ghost predicate Took(was: seq<Buf>, now: seq<Buf>, i: nat, b: nat)
  {
    && i < |was| == |now| && now == was[i := now[i]]
    && (if was[i].dev == ROOTDEV && was[i].blockno == b
        then now[i].refcnt == was[i].refcnt + 1 && now[i].dirty == was[i].dirty
        else Eligible(was[i]) && now[i].refcnt == 1 && !now[i].dirty)
  }

  // The same for two buffers, i and j.
  ghost predicate TookBoth(was: seq<Buf>, now: seq<Buf>, i: nat, j: nat)
  {
    && i < |was| == |now| && j < |was| && i != j && now == was[i := now[i]][j := now[j]]
    && (forall k | k in {i, j} && Eligible(was[k]) :: now[k].refcnt == 1 && !now[k].dirty)
  }

  // Buffers i and j are released, one of them perhaps written to disk.
  ghost predicate GaveBoth(was: seq<Buf>, now: seq<Buf>, i: nat, j: nat)
  {
    && i < |was| == |now| && j < |was| && i != j && now == was[i := now[i]][j := now[j]]
    && (forall k | k in {i, j} :: now[k].refcnt == was[k].refcnt - 1 && (now[k].dirty ==> was[k].dirty))
  }

  function Recycled(b: Buf, dev: nat, blockno: nat): Buf
  {
    b.(dev := dev, blockno := blockno, valid := false, dirty := false, refcnt := 1)
  }

  ghost function Reslot(slot: Slots, i: nat, dev: nat, blockno: nat): Slots
  {
    var rest := map k | k in slot && slot[k] != i :: slot[k];
    if dev == 0 then rest else rest[(dev, blockno) := i]
  }

  // v' differs from v at block c only.
  ghost predicate ViewsDifferAt(v: View, v': View, c: nat)
  {
    && |v'.disk| == |v.disk| && |v'.logical| == |v.logical|
    && (forall b | 0 <= b < |v.disk| && b != c :: v'.disk[b] == v.disk[b])
    && (forall b | 0 <= b < |v.logical| && b != c :: v'.logical[b] == v.logical[b])
    && (forall b | b != c :: b in v'.pinned <==> b in v.pinned)
    && (forall b | b != c :: b in v'.locked <==> b in v.locked)
  }

  // Replacing the record of buffer i, its key kept, is seen at its own block only.
  lemma Update(bufs: seq<Buf>, slot: Slots, v: View, i: nat, b: Buf, v': View)
    requires CacheOk(bufs, slot, v) && i < |bufs| && b.dev == bufs[i].dev && b.blockno == bufs[i].blockno
    requires BufOk(b, v'.disk)
    requires |v'.disk| == |v.disk| && |v'.logical| == |v'.disk|
    requires if b.dev == ROOTDEV && b.blockno < |v.disk| then ViewsDifferAt(v, v', b.blockno) else v' == v
    requires b.dev == ROOTDEV && b.blockno < |v.disk| ==>
               && v'.logical[b.blockno] == (if b.valid then b.data else v'.disk[b.blockno])
               && (b.blockno in v'.pinned <==> b.dirty) && (b.blockno in v'.locked <==> b.locked)
    ensures CacheOk(bufs[i := b], slot, v')
  {
    var bufs' := bufs[i := b];
    forall c: nat ensures BlockOk(bufs', slot, v', c) {
      assert BlockOk(bufs, slot, v, c);
      assert b.dev == ROOTDEV && b.blockno == c ==> slot[(bufs[i].dev, bufs[i].blockno)] == i;
    }
    forall j | 0 <= j < |bufs'| ensures BufOk(bufs'[j], v'.disk) {
      if j != i {
        assert BufOk(bufs[j], v.disk);
        assert bufs[j].dev == ROOTDEV && bufs[j].blockno == b.blockno && b.dev == ROOTDEV ==>
                 slot[(bufs[j].dev, bufs[j].blockno)] == j && slot[(bufs[i].dev, bufs[i].blockno)] == i;
      }
    }
    assert SlotsOk(bufs', slot);
    forall c | c in v'.pinned + v'.locked ensures c < |v'.disk| {
      assert c != b.blockno ==> c in v.pinned + v.locked;
    }
  }

  // Recycling an unused clean buffer for a block that is not cached is not seen at all.
  lemma Recycle(bufs: seq<Buf>, slot: Slots, v: View, i: nat, dev: nat, blockno: nat)
    requires CacheOk(bufs, slot, v) && i < |bufs| && Eligible(bufs[i])
    requires forall j | 0 <= j < |bufs| :: !(bufs[j].dev == dev && bufs[j].blockno == blockno)
    ensures CacheOk(bufs[i := Recycled(bufs[i], dev, blockno)], Reslot(slot, i, dev, blockno), v)
  {
    var bufs', slot' := bufs[i := Recycled(bufs[i], dev, blockno)], Reslot(slot, i, dev, blockno);
    assert BufOk(bufs[i], v.disk);
    forall b: nat ensures BlockOk(bufs', slot', v, b) {
      assert BlockOk(bufs, slot, v, b);
      RecycledLookup(bufs, slot, i, dev, blockno, b);
    }
    RecycledSlots(bufs, slot, i, dev, blockno);
    forall j | 0 <= j < |bufs'| ensures BufOk(bufs'[j], v.disk) {
      assert BufOk(bufs[j], v.disk);
    }
  }

  lemma RecycledSlots(bufs: seq<Buf>, slot: Slots, i: nat, dev: nat, blockno: nat)
    requires SlotsOk(bufs, slot) && i < |bufs|
    requires forall j | 0 <= j < |bufs| :: !(bufs[j].dev == dev && bufs[j].blockno == blockno)
    ensures SlotsOk(bufs[i := Recycled(bufs[i], dev, blockno)], Reslot(slot, i, dev, blockno))
  {
  }

  lemma RecycledLookup(bufs: seq<Buf>, slot: Slots, i: nat, dev: nat, blockno: nat, b: nat)
    requires SlotsOk(bufs, slot) && i < |bufs|
    requires forall j | 0 <= j < |bufs| :: !(bufs[j].dev == dev && bufs[j].blockno == blockno)
    ensures var bufs' := bufs[i := Recycled(bufs[i], dev, blockno)];
            var c, c' := Lookup(bufs, slot, b), Lookup(bufs', Reslot(slot, i, dev, blockno), b);
            || c' == c
            || (c == None && c' == Some(Recycled(bufs[i], dev, blockno)))
            || (c == Some(bufs[i]) && c' == None)
  {
    var k := (ROOTDEV, b);
    if k in slot {
      assert slot[k] == i ==> k != (dev, blockno);
    }
  }

  lemma BufIsOk(bufs: seq<Buf>, slot: Slots, v: View, i: nat)
    requires CacheOk(bufs, slot, v) && i < |bufs|
    ensures BufOk(bufs[i], v.disk)
    ensures bufs[i].dev == ROOTDEV && bufs[i].blockno < |v.disk| ==>
              && v.logical[bufs[i].blockno] == (if bufs[i].valid then bufs[i].data else v.disk[bufs[i].blockno])
              && (bufs[i].blockno in v.locked <==> bufs[i].locked) && (bufs[i].blockno in v.pinned <==> bufs[i].dirty)
  {
    if bufs[i].dev == ROOTDEV && bufs[i].blockno < |v.disk| {
      LookupHeld(bufs, slot, v, i);
      assert BlockOk(bufs, slot, v, bufs[i].blockno);
    }
  }

  lemma LookupHeld(bufs: seq<Buf>, slot: Slots, v: View, i: nat)
    requires CacheOk(bufs, slot, v) && i < |bufs| && bufs[i].dev == ROOTDEV
    ensures Lookup(bufs, slot, bufs[i].blockno) == Some(bufs[i])
    ensures bufs[i].blockno < |v.disk| ==> (bufs[i].blockno in v.locked <==> bufs[i].locked)
    ensures bufs[i].blockno < |v.disk| ==> (bufs[i].blockno in v.pinned <==> bufs[i].dirty)
    ensures bufs[i].blockno < |v.disk| && bufs[i].valid ==> v.logical[bufs[i].blockno] == bufs[i].data
  {
    assert BlockOk(bufs, slot, v, bufs[i].blockno);
    assert slot[(bufs[i].dev, bufs[i].blockno)] == i;
  }

  class Bcache {
    const nbuf: nat
    const buf: array<Buf>
    const list: MruList
    var disk: Image
    ghost var history: seq<Image>
    ghost var slot: Slots
    ghost var logical: Image     // the blocks as the users of the cache see them
    ghost var pinned: set<nat>   // the blocks whose buffer carries B_DIRTY
    ghost var locked: set<nat>   // the blocks whose buffer some process has locked

    ghost predicate Valid()
      reads this, buf, list, list.next, list.prev
    {
      && list.Valid() && list.n == nbuf == buf.Length && |logical| == |disk|
      && CacheOk(buf[..], slot, View(disk, logical, pinned, locked))
    }

    ghost predicate Caches(dev: nat, blockno: nat)
      reads buf
    {
      exists i :: 0 <= i < buf.Length && buf[i].dev == dev && buf[i].blockno == blockno
    }

    // A block has at most one buffer.
    lemma OneBuffer(i: nat, j: nat)
      requires Valid() && i < buf.Length && j < buf.Length && buf[i].dev != 0
      requires buf[i].dev == buf[j].dev && buf[i].blockno == buf[j].blockno
      ensures i == j
    {
      assert buf[..][i] == buf[i] && buf[..][j] == buf[j];
    }

    // Blocks that nobody has pinned or locked look as they are on disk.
    lemma CleanIsOnDisk(b: nat)
      requires Valid() && b < |disk| && b !in pinned && b !in locked
      ensures logical[b] == disk[b]
    {
      assert BlockOk(buf[..], slot, View(disk, logical, pinned, locked), b);
      if (ROOTDEV, b) in slot {
        assert BufOk(buf[..][slot[(ROOTDEV, b)]], disk);
      }
    }

    // binit, with a disk as the previous boot left it.
    constructor (nbuf: nat, disk: Image)
      ensures Valid() && this.nbuf == nbuf && this.disk == disk && history == [disk]
      ensures fresh(buf) && fresh(list) && fresh(list.next) && fresh(list.prev)
      ensures logical == disk && pinned == {} && locked == {}
      ensures buf.Length == nbuf && forall i | 0 <= i < nbuf :: Eligible(buf[i])
    {
      this.nbuf := nbuf;
      buf := new Buf[nbuf](i => Buf(0, 0, false, false, 0, false, 0, ZERO_BLOCK));
      list := new MruList(nbuf);
      this.disk := disk;
      slot, logical, pinned, locked := map[], disk, {}, {};
      history := [disk];
      new;
      forall b: nat ensures BlockOk(buf[..], slot, View(disk, logical, pinned, locked), b) {
      }
    }

    // The first scan of bget.
    method FindCached(dev: nat, blockno: nat) returns (r: Option<nat>)
      requires Valid()
      ensures r == None <==> !Caches(dev, blockno)
      ensures r.Some? ==> r.value < nbuf && buf[r.value].dev == dev && buf[r.value].blockno == blockno
    {
      hide CacheOk;
      var b := list.next[nbuf];
      ghost var k := 1;
      while b != nbuf
        invariant 1 <= k <= nbuf + 1
        invariant b == if k == nbuf + 1 then nbuf else list.ring[k]
        invariant forall j | 0 < j < k :: !(buf[list.ring[j]].dev == dev && buf[list.ring[j]].blockno == blockno)
        decreases nbuf + 1 - k
      {
        if buf[b].dev == dev && buf[b].blockno == blockno { return Some(b); }
        b := list.next[b];
        k := k + 1;
      }
      forall i | 0 <= i < nbuf ensures !(buf[i].dev == dev && buf[i].blockno == blockno) {
        assert i in list.ring;
      }
      return None;
    }

    // The second scan of bget, from the least recently used end.
    method FindUnused() returns (r: Option<nat>)
      requires Valid()
      ensures r == None ==> forall i | 0 <= i < nbuf :: !Eligible(buf[i])
      ensures r.Some? ==> r.value < nbuf
      ensures r.Some? ==> LeastRecent(buf[..], list.ring, r.value)
    {
      hide CacheOk;
      var b := list.prev[nbuf];
      ghost var k := nbuf;
      assert list.ring[After(nbuf, nbuf + 1)] == nbuf;
      while b != nbuf
        invariant 0 <= k <= nbuf && b == list.ring[k]
        invariant forall j | k < j <= nbuf :: list.ring[j] < nbuf && !Eligible(buf[list.ring[j]])
        decreases k
      {
        if buf[b].refcnt == 0 && !buf[b].dirty { return Some(b); }
        assert After(k - 1, nbuf + 1) == k;
        b := list.prev[b];
        k := k - 1;
      }
      forall i | 0 <= i < nbuf ensures !Eligible(buf[i]) {
        assert i in list.ring;
      }
      return None;
    }

    // bget up to the release of bcache.lock; None is the panic.
    method Bget(dev: nat, blockno: nat) returns (r: Option<nat>)
      requires Valid()
      modifies this`slot, buf
      ensures Valid()
      ensures r == None <==> !old(Caches(dev, blockno)) && forall i | 0 <= i < buf.Length :: !Eligible(old(buf[i]))
      ensures r == None <==> forall i | 0 <= i < buf.Length ::
                && !(old(buf[i]).dev == dev && old(buf[i]).blockno == blockno)
                && (old(buf[i]).refcnt != 0 || old(buf[i]).dirty)
      ensures r == None ==> buf[..] == old(buf[..])
      ensures r.Some? ==> r.value < buf.Length && buf[..] == old(buf[..])[r.value := buf[r.value]]
      ensures r.Some? && old(Caches(dev, blockno)) ==>
                && old(buf[r.value]).dev == dev && old(buf[r.value]).blockno == blockno
                && buf[r.value] == old(buf[r.value]).(refcnt := old(buf[r.value]).refcnt + 1)
      // A recycled buffer is unused and clean, and the least recently used such buffer.
      ensures r.Some? && !old(Caches(dev, blockno)) ==>
                && buf[r.value] == Recycled(old(buf[r.value]), dev, blockno)
                && LeastRecent(old(buf[..]), list.ring, r.value)
      ensures r.Some? && !old(Caches(dev, blockno)) ==>
                && old(buf[r.value]).refcnt == 0 && !old(buf[r.value]).dirty
                && buf[r.value] == old(buf[r.value]).(dev := dev, blockno := blockno, valid := false, refcnt := 1)
      ensures r.Some? ==> Waiters(buf[r.value]) > 0
      ensures r.Some? ==> (dev == ROOTDEV ==> Took(old(buf[..]), buf[..], r.value, blockno))
      ensures forall i | 0 <= i < buf.Length && old(buf[i]).locked :: buf[i] == old(buf[i]).(refcnt := buf[i].refcnt)
    {
      hide CacheOk;
      hide MruList.Valid;
      r := FindCached(dev, blockno);
      if r.Some? {
        BufIsOk(buf[..], slot, View(disk, logical, pinned, locked), r.value);
        Retain(r.value);
        return;
      }
      r := FindUnused();
      if r.Some? {
        var i := r.value;
        BufIsOk(buf[..], slot, View(disk, logical, pinned, locked), i);
        Recycle(buf[..], slot, View(disk, logical, pinned, locked), i, dev, blockno);
        slot := Reslot(slot, i, dev, blockno);
        buf[i] := Recycled(buf[i], dev, blockno);
        assert buf[..] == old(buf[..])[i := buf[i]];
      }
    }

    // b->refcnt++
    method Retain(i: nat)
      requires Valid() && i < nbuf
      modifies buf
      ensures Valid() && buf[..] == old(buf[..])[i := old(buf[i]).(refcnt := old(buf[i]).refcnt + 1)]
    {
      hide CacheOk;
      hide MruList.Valid;
      ghost var v := View(disk, logical, pinned, locked);
      BufIsOk(buf[..], slot, v, i);
      Update(buf[..], slot, v, i, buf[i].(refcnt := buf[i].refcnt + 1), v);
      buf[i] := buf[i].(refcnt := buf[i].refcnt + 1);
      assert buf[..] == old(buf[..])[i := buf[i]];
    }

    // Buffer i is a valid copy of block b that process pid has locked.
    ghost predicate Holds(i: nat, b: nat, pid: int)
      reads buf
    {
      && i < buf.Length && Holding(buf[i], pid)
      && buf[i].dev == ROOTDEV && buf[i].blockno == b && buf[i].valid
    }

    lemma LockIsKnown(i: nat)
      requires Valid() && i < buf.Length && buf[i].dev == ROOTDEV && buf[i].blockno < |disk|
      ensures buf[i].locked <==> buf[i].blockno in locked
    {
      LookupHeld(buf[..], slot, View(disk, logical, pinned, locked), i);
    }

    // Process p has buffer i, with a block of the disk read in.
    predicate Held(i: nat, p: int)
      requires i < buf.Length
      reads this, buf
    {
      Holding(buf[i], p) && buf[i].dev == ROOTDEV && buf[i].valid && buf[i].blockno < |disk|
    }

    lemma HeldIsLocked(i: nat, b: nat, pid: int)
      requires Valid() && Holds(i, b, pid)
      ensures b in locked && b < |disk| && buf[i].data == logical[b]
    {
      BufIsOk(buf[..], slot, View(disk, logical, pinned, locked), i);
      LookupHeld(buf[..], slot, View(disk, logical, pinned, locked), i);
    }

    // The end of acquiresleep: the lock is seen free and taken.
    method Lock(i: nat, pid: int)
      requires Valid() && i < nbuf && buf[i].refcnt > 0 && !buf[i].locked
      modifies this`locked, buf
      ensures Valid() && buf[..] == old(buf[..])[i := old(buf[i]).(locked := true, pid := pid)]
      ensures buf[i].dev == ROOTDEV && buf[i].blockno < |disk| ==> locked == old(locked) + {buf[i].blockno}
    {
      hide CacheOk;
      hide MruList.Valid;
      ghost var v := View(disk, logical, pinned, locked);
      BufIsOk(buf[..], slot, v, i);
      buf[i] := buf[i].(locked := true, pid := pid);
      if buf[i].dev == ROOTDEV && buf[i].blockno < |disk| { locked := locked + {buf[i].blockno}; }
      assert buf[..] == old(buf[..])[i := buf[i]];
      Update(old(buf[..]), slot, v, i, buf[i], View(disk, logical, pinned, locked));
    }

    // iderw of memide.c; false is one of its panics.
    method Iderw(i: nat, pid: int) returns (ok: bool)
      requires Valid() && i < nbuf
      modifies this`disk, this`history, this`pinned, buf
      ensures Valid()
      ensures ok <==> var b := old(buf[i]);
                b.locked && b.pid == pid && !(b.valid && !b.dirty) && b.dev == ROOTDEV && b.blockno < |old(disk)|
      ensures !ok ==> buf[..] == old(buf[..]) && disk == old(disk) && history == old(history) && pinned == old(pinned)
      ensures ok && old(buf[i]).dirty ==>
                && disk == old(disk)[old(buf[i]).blockno := old(buf[i]).data] && history == old(history) + [disk]
                && buf[..] == old(buf[..])[i := old(buf[i]).(dirty := false, valid := true)]
                && pinned == old(pinned) - {old(buf[i]).blockno}
      ensures ok && !old(buf[i]).dirty ==>
                && disk == old(disk) && history == old(history) && pinned == old(pinned)
                && buf[..] == old(buf[..])[i := old(buf[i]).(data := disk[old(buf[i]).blockno], valid := true)]
    {
      hide CacheOk;
      hide MruList.Valid;
      if !Holding(buf[i], pid) || (buf[i].valid && !buf[i].dirty) || buf[i].dev != ROOTDEV || buf[i].blockno >= |disk| {
        return false;
      }
      var b := buf[i].blockno;
      ghost var v := View(disk, logical, pinned, locked);
      BufIsOk(buf[..], slot, v, i);
      if buf[i].dirty {
        disk := disk[b := buf[i].data];
        history := history + [disk];
        pinned := pinned - {b};
        buf[i] := buf[i].(dirty := false, valid := true);
      } else {
        buf[i] := buf[i].(data := disk[b], valid := true);
      }
      assert buf[..] == old(buf[..])[i := buf[i]];
      Update(old(buf[..]), slot, v, i, buf[i], View(disk, logical, pinned, locked));
      return true;
    }

    // bread once bget has found buffer i for block b.
    method ReadIn(i: nat, b: nat, pid: int)
      requires Valid() && i < buf.Length && buf[i].dev == ROOTDEV && buf[i].blockno == b < |disk|
      requires buf[i].refcnt > 0 && !buf[i].locked
      modifies this`disk, this`history, this`pinned, this`locked, buf
      ensures Valid() && disk == old(disk) && history == old(history)
      ensures Holds(i, b, pid) && buf[i].data == logical[b]
      ensures pinned == old(pinned) && locked == old(locked) + {b}
      ensures buf[..] == old(buf[..])[i := buf[i]]
      ensures buf[i].refcnt == old(buf[i]).refcnt && buf[i].dirty == old(buf[i]).dirty
    {
      hide CacheOk;
      hide MruList.Valid;
      BufIsOk(buf[..], slot, View(disk, logical, pinned, locked), i);
      Lock(i, pid);
      if !buf[i].valid {
        var ok := Iderw(i, pid);
      }
      LookupHeld(buf[..], slot, View(disk, logical, pinned, locked), i);
    }

    // Return a locked buffer with the contents of the block; None is a panic.
    method Bread(b: nat, pid: int) returns (r: Option<nat>)
      requires Valid() && b !in locked
      modifies this, buf
      ensures disk == old(disk) && history == old(history)
      ensures b < |disk| ==>
                (r == None <==> !old(Caches(ROOTDEV, b)) && forall i | 0 <= i < buf.Length :: !Eligible(old(buf[i])))
      ensures b < |disk| && r == None ==> Valid() && buf[..] == old(buf[..]) && logical == old(logical)
      ensures b < |disk| && r == None ==> pinned == old(pinned) && locked == old(locked)
      ensures r.Some? ==> Took(old(buf[..]), buf[..], r.value, b)
      ensures r.Some? ==> Valid() && b < |disk| && Holds(r.value, b, pid) && buf[r.value].data == old(logical)[b]
      ensures r.Some? ==> logical == old(logical) && pinned == old(pinned) && locked == old(locked) + {b}
      ensures r.Some? ==> forall i | 0 <= i < buf.Length && old(buf[i]).locked :: buf[i] == old(buf[i])
      ensures r.Some? ==> Waiters(old(buf[r.value])) == 0 || Waiters(buf[r.value]) == Waiters(old(buf[r.value]))
    {
      hide CacheOk;
      hide MruList.Valid;
      r := Bget(ROOTDEV, b);
      if r == None { return; }
      if b >= |disk| { return None; }
      LookupHeld(buf[..], slot, View(disk, logical, pinned, locked), r.value);
      ReadIn(r.value, b, pid);
    }

    // A pinned block has a buffer.
    lemma PinnedIsCached(b: nat)
      requires Valid() && b in pinned
      ensures Caches(ROOTDEV, b)
    {
      assert b in pinned + locked;
      assert BlockOk(buf[..], slot, View(disk, logical, pinned, locked), b);
      var i := slot[(ROOTDEV, b)];
      assert buf[i] == buf[..][i];
    }

    // The holder changes b->data.
    method SetData(i: nat, ghost b: nat, pid: int, data: Block)
      requires Valid() && Holds(i, b, pid)
      modifies this`logical, buf
      ensures Valid() && b < |disk| && Holds(i, b, pid) && buf[..] == old(buf[..])[i := old(buf[i]).(data := data)]
      ensures logical == old(logical)[b := data]
    {
      hide CacheOk;
      hide MruList.Valid;
      ghost var v := View(disk, logical, pinned, locked);
      BufIsOk(buf[..], slot, v, i);
      LookupHeld(buf[..], slot, v, i);
      buf[i] := buf[i].(data := data);
      logical := logical[b := data];
      assert buf[..] == old(buf[..])[i := buf[i]];
      Update(old(buf[..]), slot, v, i, buf[i], View(disk, logical, pinned, locked));
    }

    // b->flags |= B_DIRTY, as log_write does.
    method Pin(i: nat, ghost b: nat, pid: int)
      requires Valid() && Holds(i, b, pid)
      modifies this`pinned, buf
      ensures Valid() && b < |disk| && Holds(i, b, pid) && buf[..] == old(buf[..])[i := old(buf[i]).(dirty := true)]
      ensures pinned == old(pinned) + {b}
    {
      hide CacheOk;
      hide MruList.Valid;
      ghost var v := View(disk, logical, pinned, locked);
      BufIsOk(buf[..], slot, v, i);
      LookupHeld(buf[..], slot, v, i);
      buf[i] := buf[i].(dirty := true);
      pinned := pinned + {b};
      assert buf[..] == old(buf[..])[i := buf[i]];
      Update(old(buf[..]), slot, v, i, buf[i], View(disk, logical, pinned, locked));
    }

    // Write the buffer to disk; panics unless the caller has it locked.
    method Bwrite(i: nat, ghost b: nat, pid: int) returns (ok: bool)
      requires Valid() && i < buf.Length && (Holding(buf[i], pid) ==> Holds(i, b, pid))
      modifies this`disk, this`history, this`pinned, buf
      ensures Valid() && (ok <==> old(buf[i]).locked && old(buf[i]).pid == pid)
      ensures !ok ==> buf[..] == old(buf[..]) && disk == old(disk) && history == old(history) && pinned == old(pinned)
      ensures ok ==> Holds(i, b, pid) && buf[..] == old(buf[..])[i := old(buf[i]).(dirty := false)]
      ensures ok ==> b < |old(disk)| && disk == old(disk)[b := buf[i].data] && history == old(history) + [disk]
      ensures ok ==> pinned == old(pinned) - {b}
    {
      hide CacheOk;
      hide MruList.Valid;
      if !Holding(buf[i], pid) { return false; }
      Pin(i, b, pid);
      ok := Iderw(i, pid);
    }

    // releasesleep(&b->lock) and b->refcnt--
    method Unlock(i: nat, ghost b: nat, pid: int)
      requires Valid() && Holds(i, b, pid) && b < |disk| && (b in pinned || logical[b] == disk[b])
      modifies this`locked, buf
      ensures Valid() && locked == old(locked) - {b} && old(buf[i]).refcnt > 0
      ensures buf[..] == old(buf[..])[i := old(buf[i]).(locked := false, pid := 0, refcnt := old(buf[i]).refcnt - 1)]
    {
      hide CacheOk;
      hide MruList.Valid;
      ghost var v := View(disk, logical, pinned, locked);
      BufIsOk(buf[..], slot, v, i);
      LookupHeld(buf[..], slot, v, i);
      buf[i] := buf[i].(locked := false, pid := 0);
      buf[i] := buf[i].(refcnt := buf[i].refcnt - 1);
      locked := locked - {b};
      assert buf[..] == old(buf[..])[i := buf[i]];
      Update(old(buf[..]), slot, v, i, buf[i], View(disk, logical, pinned, locked));
    }

    // Release the buffer, and move it to the head of the list if nobody waits for it.
    // The caller has written back or pinned what it changed.
    method Brelse(i: nat, ghost b: nat, pid: int) returns (ok: bool)
      requires Valid() && i < buf.Length && b < |disk|
      requires Holding(buf[i], pid) ==> Holds(i, b, pid) && (b in pinned || logical[b] == disk[b])
      modifies this`locked, buf, list, list.next, list.prev
      ensures Valid() && (ok <==> old(buf[i]).locked && old(buf[i]).pid == pid)
      ensures !ok ==> buf[..] == old(buf[..]) && locked == old(locked)
      ensures ok ==> locked == old(locked) - {b} && old(buf[i]).refcnt > 0
      ensures ok ==>
                buf[..] == old(buf[..])[i := old(buf[i]).(locked := false, pid := 0, refcnt := old(buf[i]).refcnt - 1)]
      ensures ok && buf[i].refcnt == 0 ==> |list.ring| > 1 && list.ring[1] == i
      ensures ok && buf[i].refcnt > 0 ==> list.ring == old(list.ring)
    {
      hide CacheOk;
      if !Holding(buf[i], pid) { return false; }
      Unlock(i, b, pid);
      if buf[i].refcnt == 0 {
        assert i in list.ring;
        ghost var k :| 0 <= k <= nbuf && list.ring[k] == i;
        list.MoveToFront(i, k);
      }
      return true;
    }
  }
}
