/**
 Pipes: the ring buffer with its two wrapping counters, and the writers and readers that sleep on it.

 A pass is what pipewrite or piperead does from taking the pipe's lock, at its start or when it is
 woken, to the sleep or return that gives it up.
 */
module Pipes {

  import opened Bytes

  const PIPESIZE: nat := 512

  // How a pass of pipewrite ends: all written, the early return, or asleep for want of room.
  datatype WriteEnd = Done | Refused | NoRoom

  // How a pass of piperead ends: bytes copied, killed while there was nothing, or asleep.
  datatype ReadEnd = Got(bytes: seq<byte>) | Stopped | NoData

  function Min(a: nat, b: nat): nat { if a < b then a else b }

  // Bytes of `rest` that a pass appends to the contents q.
  function Fitting(q: seq<byte>, rest: seq<byte>): nat
    requires |q| <= PIPESIZE
  {
    Min(|rest|, PIPESIZE - |q|)
  }

  function WriteEnds(q: seq<byte>, rest: seq<byte>, readopen: bool, killed: bool): WriteEnd
    requires |q| <= PIPESIZE
  {
    if Fitting(q, rest) == |rest| then Done else if !readopen || killed then Refused else NoRoom
  }

  function ReadEnds(q: seq<byte>, n: nat, writeopen: bool, killed: bool): ReadEnd
  {
    if q == [] && writeopen then (if killed then Stopped else NoData) else Got(q[..Min(n, |q|)])
  }

  // ---- The ring ----

  lemma CountersAgree(written: nat, taken: nat)
    requires taken <= written <= taken + PIPESIZE
    ensures written % UINT_LIMIT == UAdd(taken % UINT_LIMIT, PIPESIZE) <==> written == taken + PIPESIZE
    ensures written % UINT_LIMIT == taken % UINT_LIMIT <==> written == taken
    ensures written % UINT_LIMIT % PIPESIZE == written % PIPESIZE && taken % UINT_LIMIT % PIPESIZE == taken % PIPESIZE
  {
    var a, b := written / UINT_LIMIT, taken / UINT_LIMIT;
    assert written == a * UINT_LIMIT + written % UINT_LIMIT && taken == b * UINT_LIMIT + taken % UINT_LIMIT;
    assert a == b || a == b + 1;
    WrapMod(written);
    WrapMod(taken);
    UAddWraps(taken % UINT_LIMIT, PIPESIZE);
  }

  // The counters may wrap because PIPESIZE divides 2 to the 32.
  lemma WrapMod(n: nat)
    ensures n % UINT_LIMIT % PIPESIZE == n % PIPESIZE
  {
    var a, r := n / UINT_LIMIT, n % UINT_LIMIT;
    assert n == (a * (UINT_LIMIT / PIPESIZE)) * PIPESIZE + r;
    var b, t := r / PIPESIZE, r % PIPESIZE;
    assert n == (a * (UINT_LIMIT / PIPESIZE) + b) * PIPESIZE + t;
  }

  // Two positions less than PIPESIZE apart use different cells.
  lemma CellsApart(i: nat, j: nat)
    requires i < j < i + PIPESIZE
    ensures i % PIPESIZE != j % PIPESIZE
  {
    var a, b := i / PIPESIZE, j / PIPESIZE;
    assert i == a * PIPESIZE + i % PIPESIZE && j == b * PIPESIZE + j % PIPESIZE;
    assert a == b || a + 1 == b;
  }

  class Pipe {
    const data: array<byte>
    var nread: uint
    var nwrite: uint
    var readopen: bool
    var writeopen: bool
    ghost var written: seq<byte>  // every byte appended so far
    ghost var taken: nat          // how many of them have been read

    ghost predicate Cell(k: nat)
      requires data.Length == PIPESIZE
      reads this, data
    {
      taken <= k < |written| ==> data[k % PIPESIZE] == written[k]
    }

    ghost predicate Valid()
      reads this, data
    {
      && data.Length == PIPESIZE && taken <= |written| <= taken + PIPESIZE
      && nwrite == |written| % UINT_LIMIT && nread == taken % UINT_LIMIT
      && forall k: nat {:trigger Cell(k)} :: Cell(k)
    }

    // What is in the pipe.
    ghost function Contents(): (q: seq<byte>)
      requires Valid()
      reads this, data
      ensures |q| <= PIPESIZE
    {
      written[taken..]
    }

    constructor ()
      ensures Valid() && fresh(data) && written == [] && taken == 0 && readopen && writeopen
    {
      data := new byte[PIPESIZE];
      nread, nwrite, readopen, writeopen, written, taken := 0, 0, true, true, [], 0;
    }

    method Put(b: byte)
      requires Valid() && |written| < taken + PIPESIZE
      modifies this`nwrite, this`written, data
      ensures Valid() && written == old(written) + [b]
    {
      var cell := nwrite % PIPESIZE;
      CountersAgree(|written|, taken);
      ghost var n := |written|;
      data[cell] := b;
      UAddWraps(nwrite, 1);
      nwrite := UAdd(nwrite, 1);
      written := written + [b];
      NextCount(n);
      forall k: nat ensures Cell(k) {
        assert old(Cell(k));
        if taken <= k < n {
          CellsApart(k, n);
        }
      }
    }

    method Get() returns (b: byte)
      requires Valid() && taken < |written|
      modifies this`nread, this`taken
      ensures Valid() && taken == old(taken) + 1 && b == written[old(taken)]
    {
      CountersAgree(|written|, taken);
      assert Cell(taken);
      b := data[nread % PIPESIZE];
      UAddWraps(nread, 1);
      nread := UAdd(nread, 1);
      NextCount(taken);
      ghost var was := taken;
      taken := taken + 1;
      forall k: nat ensures Cell(k) {
        assert old(Cell(k));
      }
    }

    // A pass of pipewrite from byte i on; the wakeups and the sleep are its caller's.
    method WritePass(addr: seq<byte>, i: nat, killed: bool) returns (end: WriteEnd, j: nat)
      requires Valid() && i <= |addr|
      modifies this`nwrite, this`written, data
      ensures Valid() && j == i + Fitting(old(Contents()), addr[i..])
      ensures written == old(written) + addr[i..j] && end == WriteEnds(old(Contents()), addr[i..], readopen, killed)
      // It goes on until all is written or the pipe is full, and then gives up only if nobody can read
      // or the process has been killed.
      ensures i <= j <= |addr| && (j < |addr| ==> |written| == taken + PIPESIZE)
      ensures end == Done <==> j == |addr|
      ensures end == Refused <==> j < |addr| && (!readopen || killed)
      ensures end == NoRoom <==> j < |addr| && readopen && !killed
    {
      j := i;
      ghost var room := taken + PIPESIZE - |written|;
      while j < |addr|
        invariant Valid() && i <= j <= |addr| && written == old(written) + addr[i..j] && j - i <= room
      {
        CountersAgree(|written|, taken);
        if nwrite == UAdd(nread, PIPESIZE) {
          if !readopen || killed {
            return Refused, j;
          }
          return NoRoom, j;
        }
        assert addr[i..j + 1] == addr[i..j] + [addr[j]];
        Put(addr[j]);
        j := j + 1;
      }
      end := Done;
    }

    // A pass of piperead for at most n bytes.
    method ReadPass(n: nat, killed: bool) returns (end: ReadEnd)
      requires Valid()
      modifies this`nread, this`taken
      ensures Valid() && end == ReadEnds(old(Contents()), n, writeopen, killed)
      ensures taken == old(taken) + if end.Got? then |end.bytes| else 0
      // An empty pipe that can still be written puts the reader to sleep, or sends it away if it has been
      // killed; otherwise it gets the oldest bytes, n of them or all there are.
      ensures end == Stopped <==> old(taken) == |written| && writeopen && killed
      ensures end == NoData <==> old(taken) == |written| && writeopen && !killed
      ensures end.Got? ==> end.bytes == written[old(taken)..taken] && |end.bytes| <= n
      ensures end.Got? ==> |end.bytes| == n || taken == |written|
    {
      CountersAgree(|written|, taken);
      if nread == nwrite && writeopen {
        return if killed then Stopped else NoData;
      }
      var i, got := 0, [];
      while i < n
        invariant Valid() && 0 <= i <= n && taken == old(taken) + i <= |written| && got == written[old(taken)..taken]
        invariant |got| == i
      {
        CountersAgree(|written|, taken);
        if nread == nwrite {
          break;
        }
        var b := Get();
        got, i := got + [b], i + 1;
      }
      assert got == old(Contents())[..i];
      end := Got(got);
    }
  }

  lemma NextCount(n: nat)
    ensures (n + 1) % UINT_LIMIT == UAdd(n % UINT_LIMIT, 1)
  {
    UAddWraps(n % UINT_LIMIT, 1);
    var a, r := n / UINT_LIMIT, n % UINT_LIMIT;
    assert n == a * UINT_LIMIT + r;
    if r + 1 == UINT_LIMIT {
      assert n + 1 == (a + 1) * UINT_LIMIT;
    } else {
      assert n + 1 == a * UINT_LIMIT + (r + 1);
    }
  }
}
