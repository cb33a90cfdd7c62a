/** Runs of filewrite: from a disk as the last run left it, one write after another. */
module FileRun {
  import opened Bytes
  import opened FsLayout
  import opened FsContent
  import opened Fs
  import opened File

  function Joined(writes: seq<seq<byte>>): seq<byte>
  {
    if writes == [] then [] else Joined(writes[..|writes| - 1]) + writes[|writes| - 1]
  }

  lemma JoinedNext(writes: seq<seq<byte>>, k: nat)
    requires k < |writes|
    ensures Joined(writes[..k + 1]) == Joined(writes[..k]) + writes[k]
  {
    assert writes[..k + 1][..k] == writes[..k];
  }

  lemma {:induction false} JoinedPrefix(writes: seq<seq<byte>>, k: nat)
    requires k <= |writes|
    ensures Joined(writes[..k]) <= Joined(writes)
  {
    if k == |writes| {
      assert writes[..k] == writes;
    } else {
      var n := |writes| - 1;
      JoinedPrefix(writes[..n], k);
      assert writes[..n][..k] == writes[..k];
    }
  }

  // What follows is written behind what has been written.
  lemma AfterBoth(s: seq<byte>, off: nat, a: seq<byte>, b: seq<byte>)
    requires a == [] || off <= |s|
    ensures After(After(s, off, a), off + |a|, b) == After(s, off, a + b)
  {
    if off <= |s| {
      SpliceMore(s, off, a, b);
    } else {
      assert a + b == b;
    }
  }

  // Writes one after another, up to the first that fails: k bytes of all of them together are in the file.
  method WriteEach(f: OpenFile, writes: seq<seq<byte>>) returns (r: IoResult, ghost k: nat)
    requires f.Valid() && f.fs.tab[f.ip].typ != T_DEV && forall i | 0 <= i < |writes| :: |writes[i]| < 0x8000_0000
    modifies f, f.fs
    ensures !r.Panicked? ==> f.Valid() && k <= |Joined(writes)| && f.off == old(f.off) + k
    ensures !r.Panicked? ==> f.Bytes() == After(old(f.Bytes()), old(f.off), Joined(writes)[..k])
    ensures !r.Panicked? ==> OthersSame(old(f.Now()), f.Now(), f.ip) && f.fs.tab[f.ip].typ == old(f.fs.tab[f.ip].typ)
    ensures r.Done? ==> k == |Joined(writes)| == r.count
    ensures !r.Panicked? ==> old(f.txs) <= f.txs && forall t | |old(f.txs)| <= t < |f.txs| :: TxOk(f.fs.sb, f.txs[t])
  {
    hide Content;
    hide StOk;
    hide OnDiskOk;
    hide TxOk;
    hide AllWrote;
    hide After;
    hide Under;
    hide OthersSame;
    ghost var first := f.Now();
    k := 0;
    var count := 0;
    UnderStart(f.fs.sb, f.ip, first, f.off, f.txs);
    for i := 0 to |writes|
      invariant f.Valid() && f.fs.tab[f.ip].typ == old(f.fs.tab[f.ip].typ)
      invariant k == count == |Joined(writes[..i])| && f.off == old(f.off) + k
      invariant Under(f.fs.sb, f.ip, first, f.Now(), old(f.off), Joined(writes[..i]), old(f.txs), f.txs)
    {
      ghost var now, txs, done := f.Now(), f.txs, Joined(writes[..i]);
      JoinedNext(writes, i);
      JoinedPrefix(writes, i);
      JoinedPrefix(writes, i + 1);
      ghost var m;
      r, m := f.FileWrite(writes[i]);
      if r.Panicked? { return; }
      UnderMore(f.fs.sb, f.ip, first, now, f.Now(), old(f.off), done, writes[i], m, old(f.txs), txs, f.txs);
      k := |done| + m;
      if r.Failed? {
        assert Joined(writes)[..k] == done + writes[i][..m];
        UnderIs(f.fs.sb, f.ip, first, f.Now(), old(f.off), done + writes[i][..m], old(f.txs), f.txs);
        return;
      }
      assert writes[i][..m] == writes[i];
      count := count + r.count;
    }
    assert writes[..|writes|] == writes && Joined(writes)[..k] == Joined(writes);
    UnderIs(f.fs.sb, f.ip, first, f.Now(), old(f.off), Joined(writes), old(f.txs), f.txs);
    r := Done(count);
  }

  // Since `first`, the bytes a have been written at off, by transactions that are all in order.
  ghost predicate Under(sb: Super, i: nat, first: Snap, now: Snap, off: nat, a: seq<byte>, txs0: seq<Tx>, txs: seq<Tx>)
  {
    && i < |first.tab| && FileIs(now, i, After(Content(first.tab[i], first.disk), off, a)) && OthersSame(first, now, i)
    && (a == [] || off <= |Content(first.tab[i], first.disk)|)
    && txs0 <= txs && forall t | |txs0| <= t < |txs| :: TxOk(sb, txs[t])
  }

  lemma UnderStart(sb: Super, i: nat, s: Snap, off: nat, txs: seq<Tx>)
    requires i < |s.tab|
    ensures Under(sb, i, s, s, off, [], txs, txs)
  {
    hide Content;
    hide TxOk;
    AfterNothing(Content(s.tab[i], s.disk), off);
    SameOthers(s, i);
  }

  lemma UnderMore(sb: Super, i: nat, first: Snap, now: Snap, next: Snap, off: nat, a: seq<byte>, addr: seq<byte>,
                  m: nat,
                  txs0: seq<Tx>, txs: seq<Tx>, txs': seq<Tx>)
    requires Under(sb, i, first, now, off, a, txs0, txs) && m <= |addr| && i < |now.tab| && i < |next.tab|
    requires FileIs(next, i, After(Content(now.tab[i], now.disk), off + |a|, addr[..m])) && OthersSame(now, next, i)
    requires m > 0 ==> off + |a| <= |Content(now.tab[i], now.disk)|
    requires txs <= txs' && AllWrote(sb, i, now, Content(now.tab[i], now.disk), off + |a|, addr, txs', |txs|)
    ensures Under(sb, i, first, next, off, a + addr[..m], txs0, txs')
  {
    hide Content;
    hide TxOk;
    hide AllWrote;
    hide After;
    hide OthersSame;
    var s := Content(first.tab[i], first.disk);
    AfterBoth(s, off, a, addr[..m]);
    AfterOff(s, off, a);
    KeptTrans(first, now, next, i);
    AllTxOk(sb, i, now, Content(now.tab[i], now.disk), off + |a|, addr, txs', |txs|);
  }

  lemma UnderIs(sb: Super, i: nat, first: Snap, now: Snap, off: nat, a: seq<byte>, txs0: seq<Tx>, txs: seq<Tx>)
    requires Under(sb, i, first, now, off, a, txs0, txs)
    ensures i < |first.tab| && FileIs(now, i, After(Content(first.tab[i], first.disk), off, a))
    ensures OthersSame(first, now, i)
    ensures txs0 <= txs && forall t | |txs0| <= t < |txs| :: TxOk(sb, txs[t])
  {
    hide TxOk;
  }

  lemma SameOthers(s: Snap, i: nat)
    ensures OthersSame(s, s, i)
  {
  }

  lemma AfterNothing(s: seq<byte>, off: nat)
    ensures After(s, off, []) == s
  {
  }

  lemma AfterOff(s: seq<byte>, off: nat, a: seq<byte>)
    requires a == [] || off <= |s|
    ensures off + |a| <= |After(s, off, a)| <==> off <= |s|
  {
  }

  lemma AllTxOk(sb: Super, i: nat, first: Snap, bytes: seq<byte>, off: nat, addr: seq<byte>, txs: seq<Tx>, t0: nat)
    requires AllWrote(sb, i, first, bytes, off, addr, txs, t0)
    ensures forall t | t0 <= t < |txs| :: TxOk(sb, txs[t])
  {
    hide TxOk;
    hide Content;
    forall t | t0 <= t < |txs| ensures TxOk(sb, txs[t]) {
      assert WroteAt(sb, i, first, bytes, off, addr, txs, t0, t);
    }
  }

  // Boot, open inode ip, and write.
  method Session(sb: Super, disk: Image, ghost s: Snap, ip: nat, writes: seq<seq<byte>>)
    returns (f: OpenFile, r: IoResult, ghost k: nat)
    requires OnDiskOk(sb, s) && s.disk == disk && ip < sb.ninodes && ip < |s.tab| && s.tab[ip].typ != T_DEV
    requires forall i | 0 <= i < |writes| :: |writes[i]| < 0x8000_0000
    ensures !r.Panicked? ==> f.Valid() && k <= |Joined(writes)| && f.off == k && (r.Done? ==> k == |Joined(writes)|)
    ensures !r.Panicked? ==> f.Bytes() == After(Content(s.tab[ip], disk), 0, Joined(writes)[..k])
    ensures !r.Panicked? ==> OthersSame(s, f.Now(), ip)
    ensures !r.Panicked? ==> forall t | 0 <= t < |f.txs| :: TxOk(sb, f.txs[t])
  {
    hide Content;
    hide OnDiskOk;
    hide StOk;
    hide TxOk;
    f := Mount(sb, disk, s, ip, true);
    r, k := WriteEach(f, writes);
  }
}
