/**
  `commit` and `recover_from_log` as they run over the buffer cache.  Each disk image
  that a block write produces is recorded in `cache.trace`; the methods prove that these
  are exactly the images of module RedoLog, so its crash theorems hold of the code.
  */
module LogCommit {
  import opened RedoLog
  import opened BufCache
  import opened Common

  datatype LogWriteResult = Logged | TooBig | OutsideTransaction

  /** Whatever series of interrupted recoveries follows, the finished one finds `want` at home. */
  ghost predicate RecoversTo(e: Disk, want: Disk, L: Layout) {
    && WfDisk(e, L)
    && forall ks: seq<nat> :: SameHome(Recovered(Survive(e, L, ks), L), want, L)
  }

  ghost function BlockSet(blocks: seq<int>): (r: set<nat>) {
    set i | 0 <= i < |blocks| && blocks[i] >= 0 :: blocks[i]
  }

  lemma {:induction false} BlockSetSize(blocks: seq<int>)
    ensures |BlockSet(blocks)| <= |blocks|
  {
    if blocks != [] {
      var m := |blocks| - 1;
      BlockSetSize(blocks[..m]);
      assert BlockSet(blocks) == BlockSet(blocks[..m]) + if blocks[m] >= 0 then {blocks[m]} else {};
    }
  }

  lemma {:induction false} BlockSetExact(blocks: seq<int>)
    requires forall i :: 0 <= i < |blocks| ==> 0 <= blocks[i]
    requires forall i, j :: 0 <= i < j < |blocks| ==> blocks[i] != blocks[j]
    ensures |BlockSet(blocks)| == |blocks|
  {
    if blocks != [] {
      var m := |blocks| - 1;
      BlockSetExact(blocks[..m]);
      var x: nat := blocks[m];
      assert BlockSet(blocks) == BlockSet(blocks[..m]) + {x};
      assert x !in BlockSet(blocks[..m]);
    }
  }

  lemma InBlockSet(blocks: seq<int>, i: nat)
    requires i < |blocks| && blocks[i] >= 0
    ensures blocks[i] in BlockSet(blocks)
  {
  }

  lemma OnlyInBlockSet(blocks: seq<int>, b: nat)
    requires b !in blocks
    ensures b !in BlockSet(blocks)
  {
  }

  class Log {
    const cache: Bcache
    const L: Layout
    var lh: seq<int>          // log.lh: the first n entries of the header
    var outstanding: int

    ghost predicate Shape()
      reads this, cache, cache.buf, cache.next, cache.prev
    {
      && cache.Valid() && |cache.store| == |cache.disk| && cache.buf.Length == NBUF
      && WfShape(cache.disk, L)
      && WfBlocks(lh, L, |cache.disk|)
    }

    /** Between commits: the disk header is empty and exactly the logged blocks are dirty. */
    ghost predicate Valid()
      reads this, cache, cache.buf, cache.next, cache.prev
    {
      && Shape()
      && HeadBlocks(cache.disk[L.start]) == []
      && cache.Dirty() == BlockSet(lh)
    }

    /** What other processes hold is neither in the log area nor logged. */
    ghost predicate Apart()
      reads this, cache, cache.buf
    {
      forall b :: b in cache.Held() ==> !L.InLog(b) && b !in lh
    }

    /** After power-on: an empty cache over whatever disk the last crash left. */
    constructor (d: Disk, layout: Layout)
      requires WfDisk(d, layout)
      ensures fresh(cache) && fresh(cache.buf) && fresh(cache.next) && fresh(cache.prev)
      ensures Shape() && L == layout && cache.disk == d && cache.store == d && cache.trace == []
      ensures lh == [] && outstanding == 0 && cache.Held() == {} && cache.Dirty() == {}
    {
      cache := new Bcache(d);
      L, lh, outstanding := layout, [], 0;
    }

    /** Clean blocks carry the same content on disk as in the store. */
    lemma CleanOnDisk(b: nat)
      requires cache.Valid() && b < |cache.disk| && b !in cache.Dirty()
      ensures cache.disk[b] == cache.store[b]
    {
      var s := cache.buf[..];
      if i :| 0 <= i < |s| && s[i].Is(b) {
        assert !s[i].dirty;
      }
    }

    /** Outside the log area the store is the disk with the logged blocks on top. */
    lemma HomeOverlay()
      requires Valid()
      ensures SameHome(Overlay(cache.disk, cache.store, lh), cache.store, L)
    {
      hide Bcache.Valid, DirtyOf;
      forall b | 0 <= b < |cache.disk| && !L.InLog(b)
        ensures Overlay(cache.disk, cache.store, lh)[b] == cache.store[b]
      {
        if b !in lh {
          OnlyInBlockSet(lh, b);
          CleanOnDisk(b);
        }
      }
    }

    /** `log_write`: the buffer's content becomes the block's content, the block joins the header once. */
    method LogWrite(i: nat, b: nat) returns (r: LogWriteResult)
      requires Valid() && cache.Holds(i, b) && b < |cache.disk| && !L.InLog(b)
      modifies this`lh, cache`store, cache.buf
      ensures r.TooBig? <==> |old(lh)| == L.size - 1 || |old(lh)| == LOGSIZE
      ensures r.OutsideTransaction? <==> !r.TooBig? && outstanding < 1
      ensures !r.Logged? ==> lh == old(lh) && cache.store == old(cache.store) && cache.buf[..] == old(cache.buf[..])
      ensures r.Logged? ==>
        && Valid() && cache.Holds(i, b) && cache.buf[i] == old(cache.buf[i]).(dirty := true)
        && lh == (if b in old(lh) then old(lh) else old(lh) + [b])
        && cache.store == old(cache.store)[b := cache.buf[i].data]
        && cache.Held() == old(cache.Held())
    {
      hide Bcache.Valid, HeldOf, DirtyOf;
      if |lh| >= LOGSIZE || |lh| >= L.size - 1 {
        return TooBig;
      }
      if outstanding < 1 {
        return OutsideTransaction;
      }
      var k := 0;
      while k < |lh| && lh[k] != b
        invariant 0 <= k <= |lh| && forall j :: 0 <= j < k ==> lh[j] != b
      {
        k := k + 1;
      }
      if k == |lh| {
        lh := lh + [b];
      } else {
        lh := lh[k := b];
      }
      cache.MarkDirty(i, b);
      assert BlockSet(lh) == BlockSet(old(lh)) + {b} by {
        assert lh[k] == b;
        assert forall j :: 0 <= j < |old(lh)| ==> lh[j] == old(lh)[j];
      }
      return Logged;
    }

    /** The typical use of `log_write`: bread, log_write, brelse. */
    method Rewrite(b: nat)
      requires Valid() && cache.Held() == {} && outstanding >= 1 && b < |cache.disk| && !L.InLog(b) && b !in lh
      requires |lh| < L.size - 1 && |lh| < LOGSIZE && |lh| < NBUF
      modifies this`lh, cache, cache.buf, cache.next, cache.prev
      ensures Valid() && cache.Held() == {} && lh == old(lh) + [b] && cache.disk == old(cache.disk)
    {
      hide Bcache.Valid, HeldOf, DirtyOf, BlockSet;
      OnlyInBlockSet(lh, b);
      BlockSetSize(lh);
      NoPins(cache.Dirty(), cache.Held());
      var r := cache.Bread(b);
      assert r.Got?;
      var w := LogWrite(r.i, b);
      cache.Brelse(r.i, b);
    }

    /** The end of the loops of `write_log` and `install_trans`: memmove, `bwrite`, and two `brelse`. */
    method CopyBuffer(to: nat, ghost dst: nat, from: nat, ghost src: nat)
      requires cache.Valid() && cache.Holds(to, dst) && cache.Holds(from, src) && to != from && dst != src
      requires dst < |cache.store| && src < |cache.store| && cache.buf[from].data == cache.store[src]
      modifies cache, cache.buf, cache.next, cache.prev
      ensures cache.Valid() && cache.Held() == old(cache.Held()) - {dst, src} && cache.Dirty() == old(cache.Dirty()) - {dst}
      ensures cache.disk == old(cache.disk)[dst := old(cache.store)[src]]
      ensures cache.store == old(cache.store)[dst := old(cache.store)[src]]
      ensures cache.trace == old(cache.trace) + [cache.disk]
      ensures forall j :: 0 <= j < NBUF && j != to && j != from ==> cache.buf[j] == old(cache.buf[j])
    {
      hide Bcache.Valid, HeldOf, DirtyOf;
      cache.Fill(to, cache.buf[from].data, dst);
      cache.Bwrite(to, dst);
      cache.Brelse(from, src);
      cache.Brelse(to, dst);
    }

    /** One round of the loop of `write_log`.  It fails, in the panic of `bget`, exactly when every buffer is pinned. */
    method CopyToLog(tail: nat) returns (ok: bool)
      requires Shape() && tail < |lh| && Apart() && cache.Dirty() == BlockSet(lh)
      modifies cache, cache.buf, cache.next, cache.prev
      ensures ok <==> |lh| + |old(cache.Held())| < NBUF
      ensures !ok ==> Unchanged(old(cache.disk), old(cache.store), old(cache.trace), old(cache.buf[..]))
      ensures cache.Valid() && cache.Held() == old(cache.Held()) && cache.Dirty() == BlockSet(lh)
      ensures KeptHeld(old(cache.buf[..]), cache.buf[..])
      ensures ok ==>
        && cache.disk == old(cache.disk)[L.start + tail + 1 := old(cache.store)[lh[tail]]]
        && cache.store == old(cache.store)[L.start + tail + 1 := old(cache.store)[lh[tail]]]
        && cache.trace == old(cache.trace) + [cache.disk]
    {
      hide Bcache.Valid, HeldOf, DirtyOf, BlockSet, KeptHeld;
      PinnedBlocks();
      ghost var s0 := cache.buf[..];
      KeptAll(s0);
      var dst := L.start + tail + 1;
      assert L.InLog(dst) && !L.InLog(lh[tail]);
      OnlyInBlockSet(lh, dst);
      InBlockSet(lh, tail);
      var to := cache.Bread(dst);
      if to.NoBuffers? {
        return false;
      }
      assert to.Got?;
      var from := cache.Bread(lh[tail]);
      assert from.Got? && from.i != to.i;
      ghost var s1 := cache.buf[..];
      CopyBuffer(to.i, dst, from.i, lh[tail]);
      KeptBut(s0, s1, cache.buf[..], to.i, from.i);
      return true;
    }

    /** The pinned blocks are those that others hold and those that are logged, all different. */
    lemma PinnedBlocks()
      requires Shape() && Apart() && cache.Dirty() == BlockSet(lh)
      ensures |cache.Held() + cache.Dirty()| == |cache.Held()| + |lh|
    {
      hide Bcache.Valid, HeldOf, DirtyOf;
      BlockSetExact(lh);
      DisjointSize(cache.Held(), BlockSet(lh));
    }

    ghost predicate Unchanged(disk: Disk, store: Disk, trace: seq<Disk>, buf: seq<Buf>)
      reads cache, cache.buf
    {
      cache.disk == disk && cache.store == store && cache.trace == trace && cache.buf[..] == buf
    }

    /** `write_log`. */
    method WriteLog() returns (ok: bool)
      requires Valid() && Apart() && lh != []
      modifies cache, cache.buf, cache.next, cache.prev
      ensures ok <==> |lh| + |old(cache.Held())| < NBUF
      ensures !ok ==> Unchanged(old(cache.disk), old(cache.store), old(cache.trace), old(cache.buf[..]))
      ensures Shape() && cache.Held() == old(cache.Held()) && cache.Dirty() == BlockSet(lh)
      ensures KeptHeld(old(cache.buf[..]), cache.buf[..])
      ensures ok ==>
        && cache.disk == LogCopy(old(cache.disk), L, old(cache.store), lh, |lh|)
        && SameHome(cache.store, old(cache.store), L)
        && LogImages(old(cache.trace), cache.trace, old(cache.disk), L, old(cache.store), lh, |lh|)
    {
      hide Bcache.Valid, HeldOf, DirtyOf, BlockSet, KeptHeld, LogImages;
      ghost var d, st, tr, held, s := cache.disk, cache.store, cache.trace, cache.Held(), cache.buf[..];
      KeptAll(s);
      LogImagesNone(tr, d, L, st, lh);
      var tail := 0;
      while tail < |lh|
        invariant 0 <= tail <= |lh|
        invariant Shape() && cache.Held() == held && cache.Dirty() == BlockSet(lh) && KeptHeld(s, cache.buf[..])
        invariant tail == 0 ==> Unchanged(d, st, tr, s)
        invariant tail > 0 ==> |lh| + |held| < NBUF
        invariant cache.disk == LogCopy(d, L, st, lh, tail)
        invariant SameHome(cache.store, st, L)
        invariant LogImages(tr, cache.trace, d, L, st, lh, tail)
      {
        assert !L.InLog(lh[tail]) && L.InLog(L.start + tail + 1);
        ghost var s1, tr1 := cache.buf[..], cache.trace;
        ok := CopyToLog(tail);
        if !ok {
          return;
        }
        KeptTwice(s, s1, cache.buf[..]);
        LogImagesStep(tr, tr1, d, L, st, lh, tail);
        LogCopyAt(d, L, st, lh, tail + 1, L.start);
        tail := tail + 1;
      }
      return true;
    }

    /** `write_head`: the in-memory header goes to the header block in one block write. */
    method WriteHead()
      requires Shape() && |cache.Held() + cache.Dirty()| < NBUF && L.start !in cache.Held() + cache.Dirty()
      modifies cache, cache.buf, cache.next, cache.prev
      ensures cache.Valid() && cache.Held() == old(cache.Held()) && cache.Dirty() == old(cache.Dirty())
      ensures KeptHeld(old(cache.buf[..]), cache.buf[..])
      ensures cache.disk == SetHead(old(cache.disk), L, lh)
      ensures cache.store == old(cache.store)[L.start := cache.disk[L.start]]
      ensures cache.trace == old(cache.trace) + [cache.disk]
    {
      hide Bcache.Valid, HeldOf, DirtyOf, KeptHeld;
      ghost var s0 := cache.buf[..];
      CleanOnDisk(L.start);
      var r := cache.Bread(L.start);
      assert r.Got?;
      var hb := HeaderBlock(cache.buf[r.i].data);
      ghost var s1 := cache.buf[..];
      cache.Fill(r.i, hb, L.start);
      cache.Bwrite(r.i, L.start);
      cache.Brelse(r.i, L.start);
      KeptBut(s0, s1, cache.buf[..], r.i, r.i);
    }

    /** The header block with the list in memory written over it. */
    method HeaderBlock(was: Block) returns (hb: Block)
      requires |was| == BWORDS && |lh| <= LOGSIZE
      ensures hb == WithHead(was, lh)
    {
      hb := was[0 := |lh|];
      var i := 0;
      while i < |lh|
        invariant 0 <= i <= |lh| && |hb| == BWORDS && hb[0] == |lh|
        invariant forall j :: 0 <= j < i ==> hb[1 + j] == lh[j]
        invariant forall j :: 1 + i <= j < BWORDS ==> hb[j] == was[j]
      {
        hb := hb[1 + i := lh[i]];
        i := i + 1;
      }
    }

    /** One round of the loop of `install_trans`. */
    method CopyHome(tail: nat)
      requires Shape() && tail < |lh| && Apart()
      requires cache.Dirty() <= BlockSet(lh)
      requires if lh[tail] in cache.Dirty() then |cache.Held() + cache.Dirty()| < NBUF else cache.Held() == cache.Dirty() == {}
      modifies cache, cache.buf, cache.next, cache.prev
      ensures cache.Valid() && cache.Held() == old(cache.Held()) && cache.Dirty() == old(cache.Dirty()) - {lh[tail]}
      ensures KeptHeld(old(cache.buf[..]), cache.buf[..])
      ensures cache.disk == old(cache.disk)[lh[tail] := old(cache.disk)[L.start + tail + 1]]
      ensures cache.store == old(cache.store)[lh[tail] := old(cache.disk)[L.start + tail + 1]]
      ensures cache.trace == old(cache.trace) + [cache.disk]
    {
      hide Bcache.Valid, HeldOf, DirtyOf, BlockSet, KeptHeld;
      var src := L.start + tail + 1;
      assert L.InLog(src) && !L.InLog(lh[tail]);
      OnlyInBlockSet(lh, src);
      CleanOnDisk(src);
      ghost var s0 := cache.buf[..];
      NoPins(cache.Held(), cache.Dirty());
      var lbuf, dbuf := ReadBoth(src, lh[tail]);
      ghost var s1 := cache.buf[..];
      CopyBuffer(dbuf, lh[tail], lbuf, src);
      KeptBut(s0, s1, cache.buf[..], lbuf, dbuf);
    }

    /** The two `bread` of a round of `install_trans`. */
    method ReadBoth(src: nat, dst: nat) returns (lbuf: nat, dbuf: nat)
      requires cache.Valid() && src < |cache.disk| && dst < |cache.disk| && src != dst
      requires src !in cache.Held() + cache.Dirty() && dst !in cache.Held() && |cache.Held() + cache.Dirty()| < NBUF
      requires dst in cache.Dirty() || cache.Held() == cache.Dirty() == {}
      modifies cache, cache.buf
      ensures cache.Valid() && cache.disk == old(cache.disk) && cache.store == old(cache.store) && cache.trace == old(cache.trace)
      ensures cache.Dirty() == old(cache.Dirty()) && cache.Held() == old(cache.Held()) + {src, dst}
      ensures cache.Holds(lbuf, src) && cache.Holds(dbuf, dst) && lbuf != dbuf && lbuf < NBUF && dbuf < NBUF
      ensures src < |cache.store| && cache.buf[lbuf].data == cache.store[src] && !old(cache.buf[lbuf].busy) && !old(cache.buf[dbuf].busy)
      ensures forall j :: 0 <= j < NBUF && j != lbuf && j != dbuf ==> cache.buf[j] == old(cache.buf[j])
    {
      hide HeldOf, DirtyOf, Linked, Permutation, Unique, Coherent;
      ghost var held, dirty := cache.Held(), cache.Dirty();
      var l := cache.Bread(src);
      assert l.Got?;
      assert dst in cache.Dirty() || |cache.Held() + cache.Dirty()| < NBUF by {
        assert held == dirty == {} ==> held + {src} + dirty == {src};
      }
      var r := cache.Bread(dst);
      assert r.Got? && r.i != l.i;
      return l.i, r.i;
    }

    /**
      `install_trans`.  The header's blocks are either all pinned in the cache (a commit)
      or none is (a recovery, where nobody holds a buffer).
      */
    method InstallTrans()
      requires Shape() && Apart()
      requires (cache.Dirty() == BlockSet(lh) && |lh| + |cache.Held()| < NBUF) || cache.Held() == cache.Dirty() == {}
      modifies cache, cache.buf, cache.next, cache.prev
      ensures Shape() && cache.Held() == old(cache.Held()) && cache.Dirty() == {}
      ensures KeptHeld(old(cache.buf[..]), cache.buf[..])
      ensures cache.disk == Install(old(cache.disk), L, lh, |lh|)
      ensures InstallImages(old(cache.trace), cache.trace, old(cache.disk), L, lh, |lh|)
    {
      hide Bcache.Valid, HeldOf, DirtyOf, BlockSet, InstallImages, KeptHeld, Install;
      ghost var d, tr, held, s := cache.disk, cache.trace, cache.Held(), cache.buf[..];
      ghost var pinned := cache.Dirty() != {};
      KeptAll(s);
      assert lh[0..] == lh;
      InstallImagesNone(tr, d, L, lh);
      InstallNone(d, L, lh);
      var tail := 0;
      while tail < |lh|
        invariant 0 <= tail <= |lh|
        invariant Shape() && cache.Held() == held && KeptHeld(s, cache.buf[..])
        invariant cache.Dirty() == if pinned then BlockSet(lh[tail..]) else {}
        invariant cache.disk == Install(d, L, lh, tail)
        invariant InstallImages(tr, cache.trace, d, L, lh, tail)
      {
        BlockSetStep(lh, tail);
        if pinned {
          RestSize(held, lh, tail);
        }
        ghost var tr0, s1 := cache.trace, cache.buf[..];
        CopyHome(tail);
        KeptTwice(s, s1, cache.buf[..]);
        InstallImagesStep(tr, tr0, d, L, lh, tail);
        InstallNext(d, L, lh, tail);
        InstallAt(d, L, lh, tail + 1, L.start);
        tail := tail + 1;
      }
      NoBlocks(lh[tail..]);
    }

    /** `read_head`: the header block's list replaces the one in memory. */
    method ReadHead()
      requires cache.Valid() && WfDisk(cache.disk, L) && cache.Held() == {} && cache.Dirty() == {}
      modifies this`lh, cache, cache.buf, cache.next, cache.prev
      ensures cache.Valid() && cache.Held() == {} && cache.Dirty() == {}
      ensures cache.disk == old(cache.disk) && cache.store == old(cache.store) && cache.trace == old(cache.trace)
      ensures lh == HeadBlocks(cache.disk[L.start])
    {
      hide HeldOf, DirtyOf, Linked, Permutation, Unique, Coherent;
      CleanOnDisk(L.start);
      var r := cache.Bread(L.start);
      assert r.Got?;
      var hd := cache.buf[r.i].data;
      var n := hd[0];
      var list, i := [], 0;
      while i < n
        invariant 0 <= i <= n && list == hd[1..1 + i]
      {
        list := list + [hd[1 + i]];
        i := i + 1;
      }
      lh := list;
      cache.Brelse(r.i, L.start);
    }

    /** `recover_from_log`, run on an empty cache: its disk images are those of `RecoverPrefix`. */
    method Recover()
      requires cache.Valid() && WfDisk(cache.disk, L)
      requires cache.Held() == {} && cache.Dirty() == {}
      modifies this`lh, cache, cache.buf, cache.next, cache.prev
      ensures Valid() && cache.Held() == {} && lh == []
      ensures cache.disk == Recovered(old(cache.disk), L)
      ensures Extends(old(cache.trace), cache.trace, RecoverWrites(old(cache.disk), L))
      ensures forall j :: |old(cache.trace)| <= j < |cache.trace| ==>
        cache.trace[j] == RecoverPrefix(old(cache.disk), L, j - |old(cache.trace)| + 1)
    {
      hide HeldOf, DirtyOf, Linked, Permutation, Unique, Coherent, WfBlocks;
      ghost var d, tr := cache.disk, cache.trace;
      EmptyList(L, |d|);
      ReadHead();
      ghost var blocks := lh;
      InstallTrans();
      lh := [];
      InstallAt(d, L, blocks, |blocks|, L.start);
      WriteHead();
    }

    /**
      `commit`, while other processes may hold buffers of blocks that are neither logged nor in
      the log area.  It fails, in the panic of `bget` before anything has been written, exactly
      when the logged and the held blocks fill the cache.  Otherwise every disk image along
      the way is the corresponding `CommitPrefix`; at the end the store is on disk, nothing is
      dirty, the header is empty, and the held buffers are as they were.
      */
    method Commit() returns (ok: bool)
      requires Valid() && Apart()
      modifies this`lh, cache, cache.buf, cache.next, cache.prev
      ensures ok <==> old(lh) == [] || |old(lh)| + |old(cache.Held())| < NBUF
      ensures !ok ==> lh == old(lh) && Unchanged(old(cache.disk), old(cache.store), old(cache.trace), old(cache.buf[..]))
      ensures cache.Held() == old(cache.Held()) && KeptHeld(old(cache.buf[..]), cache.buf[..])
      ensures ok ==> Valid() && lh == []
      ensures old(lh) == [] ==> cache.disk == old(cache.disk) && cache.trace == old(cache.trace)
      ensures ok && old(lh) != [] ==>
        && cache.disk == CommitPrefix(old(cache.disk), L, old(cache.store), old(lh), 2 * |old(lh)| + 2)
        && Images(old(cache.trace), cache.trace, old(cache.disk), L, old(cache.store), old(lh))
      ensures ok ==> SameHome(cache.disk, old(cache.store), L)
      // crash atomicity, at every block write: the old disk until the header write, the store from then on
      ensures forall j :: |old(cache.trace)| <= j < |cache.trace| ==>
        RecoversTo(cache.trace[j], if j < |old(cache.trace)| + |old(lh)| then old(cache.disk) else old(cache.store), L)
    {
      hide Bcache.Valid, HeldOf, DirtyOf, WfBlocks, LogCopy, Install, CommitPrefix, Images, InstallImages, LogImages, KeptHeld, BlockSet;
      ghost var d, st, tr, blocks, n := cache.disk, cache.store, cache.trace, lh, |lh|;
      ghost var s0 := cache.buf[..];
      KeptAll(s0);
      EmptyList(L, |d|);
      HomeOverlay();
      if |lh| > 0 {
        ok := WriteLog();
        if !ok {
          return;
        }
        PinnedBlocks();
        LogCopyAt(d, L, st, blocks, n, L.start);
        ClearOfLog(blocks, L, |d|);
        ghost var tr1, s1 := cache.trace, cache.buf[..];
        WriteHead();
        KeptTwice(s0, s1, cache.buf[..]);
        ghost var h, s2 := cache.disk, cache.buf[..];
        InstallTrans();
        KeptTwice(s0, s2, cache.buf[..]);
        ghost var tr3, s3 := cache.trace, cache.buf[..];
        lh := [];
        InstallAt(h, L, blocks, n, L.start);
        NoPins(cache.Held(), cache.Dirty());
        WriteHead();
        KeptTwice(s0, s3, cache.buf[..]);
        CommitImages(d, L, st, blocks, h, cache.disk, tr, tr1, tr3);
        ImagesRecover(tr, cache.trace, d, L, st, blocks);
        NoBlocks(lh);
      }
      return true;
    }
  }

  /** The buffers that somebody held are as they were. */
  ghost predicate KeptHeld(s: seq<Buf>, t: seq<Buf>) {
    |t| == |s| && forall j :: 0 <= j < |s| && s[j].busy ==> t[j] == s[j]
  }

  lemma KeptAll(s: seq<Buf>)
    ensures KeptHeld(s, s)
  {
  }

  /** Only two buffers changed, which nobody held before. */
  lemma KeptBut(s: seq<Buf>, t: seq<Buf>, u: seq<Buf>, i: nat, k: nat)
    requires i < |s| == |t| == |u| && k < |s| && !s[i].busy && !s[k].busy
    requires forall j :: 0 <= j < |s| && j != i && j != k ==> t[j] == s[j] && u[j] == t[j]
    ensures KeptHeld(s, u)
  {
  }

  lemma KeptTwice(s: seq<Buf>, t: seq<Buf>, u: seq<Buf>)
    requires KeptHeld(s, t) && KeptHeld(t, u)
    ensures KeptHeld(s, u)
  {
  }

  lemma NoPins(held: set<nat>, dirty: set<nat>)
    ensures dirty == {} ==> held + dirty == held && (held == {} ==> |held + dirty| == 0)
  {
  }

  /** The rest of the logged blocks with the held ones are fewer than all of them. */
  lemma RestSize(held: set<nat>, lh: seq<int>, tail: nat)
    requires tail <= |lh| && |lh| + |held| < NBUF
    ensures |held + BlockSet(lh[tail..])| < NBUF
  {
    BlockSetSize(lh[tail..]);
  }

  /**
    A commit can panic: log 29 blocks, as many as a log area of 30 blocks takes, and commit
    while another process holds one more block.
    */
  method CommitPanics(d: Disk, L: Layout, hs: seq<nat>) returns (log: Log, ok: bool)
    requires WfDisk(d, L) && HeadBlocks(d[L.start]) == [] && L.size == NBUF && |hs| == NBUF
    requires forall i :: 0 <= i < |hs| ==> hs[i] < |d| && !L.InLog(hs[i])
    requires forall i, j :: 0 <= i < j < |hs| ==> hs[i] != hs[j]
    ensures !ok && |log.lh| == NBUF - 1 && log.cache.Held() == {hs[NBUF - 1]}
  {
    hide Bcache.Valid, HeldOf, DirtyOf, BlockSet, WfBlocks;
    EmptyList(L, |d|);
    log := new Log(d, L);
    log.outstanding := 1;
    NoBlocks(log.lh);
    FillLog(log, hs);
    NotLogged(log.lh, hs, NBUF - 1);
    ok := HoldAndCommit(log, hs[NBUF - 1]);
  }

  method FillLog(log: Log, hs: seq<nat>)
    requires log.Valid() && log.cache.Held() == {} && log.lh == [] && log.outstanding == 1 && log.L.size == NBUF && |hs| == NBUF
    requires forall i :: 0 <= i < |hs| ==> hs[i] < |log.cache.disk| && !log.L.InLog(hs[i])
    requires forall i, j :: 0 <= i < j < |hs| ==> hs[i] != hs[j]
    modifies log, log.cache, log.cache.buf, log.cache.next, log.cache.prev
    ensures log.Valid() && log.cache.Held() == {} && log.outstanding == 1 && log.cache.disk == old(log.cache.disk)
    ensures |log.lh| == NBUF - 1 && forall i :: 0 <= i < NBUF - 1 ==> log.lh[i] == hs[i]
  {
    hide Bcache.Valid, HeldOf, DirtyOf, BlockSet, WfBlocks;
    var k := 0;
    while k < NBUF - 1
      invariant 0 <= k <= NBUF - 1 && log.Valid() && log.outstanding == 1 && log.cache.Held() == {} && log.cache.disk == old(log.cache.disk)
      invariant |log.lh| == k && forall i :: 0 <= i < k ==> log.lh[i] == hs[i]
    {
      NotLogged(log.lh, hs, k);
      log.Rewrite(hs[k]);
      k := k + 1;
    }
  }

  /** Another process holds block `b` during the commit. */
  method HoldAndCommit(log: Log, b: nat) returns (ok: bool)
    requires log.Valid() && log.cache.Held() == {} && |log.lh| == NBUF - 1
    requires b < |log.cache.disk| && !log.L.InLog(b) && b !in log.lh
    modifies log, log.cache, log.cache.buf, log.cache.next, log.cache.prev
    ensures !ok && log.lh == old(log.lh) && log.cache.Held() == {b}
  {
    hide Bcache.Valid, HeldOf, DirtyOf, BlockSet, WfBlocks, Images, RecoversTo, Log.Unchanged, KeptHeld, CommitPrefix;
    OnlyInBlockSet(log.lh, b);
    BlockSetSize(log.lh);
    NoPins(log.cache.Dirty(), log.cache.Held());
    var r := log.cache.Bread(b);
    assert r.Got?;
    assert log.cache.Held() == {b};
    ok := log.Commit();
  }

  lemma NotLogged(lh: seq<int>, hs: seq<nat>, k: nat)
    requires |lh| == k < |hs| && (forall i :: 0 <= i < k ==> lh[i] == hs[i]) && forall i, j :: 0 <= i < j < |hs| ==> hs[i] != hs[j]
    ensures hs[k] as int !in lh && hs[k] !in BlockSet(lh)
  {
  }

  /** `tr'` is `tr` followed by all the disk images of a commit. */
  ghost predicate Images(tr: seq<Disk>, tr': seq<Disk>, d: Disk, L: Layout, st: Disk, blocks: seq<int>)
    requires WfDisk(d, L) && WfBlocks(blocks, L, |d|) && |st| == |d|
  {
    && Extends(tr, tr', 2 * |blocks| + 2)
    && forall j :: |tr| <= j < |tr'| ==> tr'[j] == CommitPrefix(d, L, st, blocks, j - |tr| + 1)
  }

  lemma CommitImages(d: Disk, L: Layout, st: Disk, blocks: seq<int>, h: Disk, e: Disk,
                     tr: seq<Disk>, tr1: seq<Disk>, tr3: seq<Disk>)
    requires WfDisk(d, L) && WfBlocks(blocks, L, |d|) && |st| == |d|
    requires var logged := LogCopy(d, L, st, blocks, |blocks|);
      |logged[L.start]| == BWORDS && h == SetHead(logged, L, blocks)
    requires |h| == |d| && |Install(h, L, blocks, |blocks|)[L.start]| == BWORDS
    requires e == SetHead(Install(h, L, blocks, |blocks|), L, [])
    requires LogImages(tr, tr1, d, L, st, blocks, |blocks|)
    requires WfShape(h, L) && InstallImages(tr1 + [h], tr3, h, L, blocks, |blocks|)
    ensures Images(tr, tr3 + [e], d, L, st, blocks)
    ensures e == CommitPrefix(d, L, st, blocks, 2 * |blocks| + 2)
  {
    var n, tr' := |blocks|, tr3 + [e];
    forall j | |tr| <= j < |tr'| ensures tr'[j] == CommitPrefix(d, L, st, blocks, j - |tr| + 1) {
      var k := j - |tr| + 1;
      if k <= n {
        assert tr'[j] == tr3[j] == (tr1 + [h])[j] == tr1[j];
      } else if n + 1 < k <= 2 * n + 1 {
        assert tr'[j] == tr3[j];
      }
    }
  }

  /** The crash theorem at every image of a commit. */
  lemma ImagesRecover(tr: seq<Disk>, tr': seq<Disk>, d: Disk, L: Layout, st: Disk, blocks: seq<int>)
    requires WfDisk(d, L) && WfBlocks(blocks, L, |d|) && |st| == |d| && HeadBlocks(d[L.start]) == []
    requires Images(tr, tr', d, L, st, blocks)
    requires SameHome(Overlay(d, st, blocks), st, L)
    ensures forall j :: |tr| <= j < |tr'| ==>
      RecoversTo(tr'[j], if j < |tr| + |blocks| then d else st, L)
    ensures SameHome(tr'[|tr'| - 1], st, L)
  {
    hide CommitPrefix, Recovered, Overlay, WfDisk, WfBlocks;
    forall j | |tr| <= j < |tr'|
      ensures RecoversTo(tr'[j], if j < |tr| + |blocks| then d else st, L)
    {
      ImageRecovers(d, L, st, blocks, j - |tr| + 1);
    }
    CommitFinal(d, L, st, blocks);
  }

  lemma ImageRecovers(d: Disk, L: Layout, st: Disk, blocks: seq<int>, k: nat)
    requires WfDisk(d, L) && WfBlocks(blocks, L, |d|) && |st| == |d| && HeadBlocks(d[L.start]) == []
    requires SameHome(Overlay(d, st, blocks), st, L) && k <= 2 * |blocks| + 2
    ensures RecoversTo(CommitPrefix(d, L, st, blocks, k), if k <= |blocks| then d else st, L)
  {
    hide CommitPrefix, Recovered, Overlay, WfDisk, WfBlocks;
    CrashAtomicity(d, L, st, blocks, k, []);
    var e := CommitPrefix(d, L, st, blocks, k);
    forall ks: seq<nat> ensures SameHome(Recovered(Survive(e, L, ks), L), if k <= |blocks| then d else st, L) {
      CrashAtomicity(d, L, st, blocks, k, ks);
    }
  }

  lemma CommitFinal(d: Disk, L: Layout, st: Disk, blocks: seq<int>)
    requires WfDisk(d, L) && WfBlocks(blocks, L, |d|) && |st| == |d|
    requires SameHome(Overlay(d, st, blocks), st, L)
    ensures SameHome(CommitPrefix(d, L, st, blocks, 2 * |blocks| + 2), st, L)
  {
    HeaderWritten(d, L, st, blocks);
    var h := CommitPrefix(d, L, st, blocks, |blocks| + 1);
    assert CommitPrefix(d, L, st, blocks, 2 * |blocks| + 2) == Recovered(h, L);
  }

  lemma EmptyList(L: Layout, total: nat)
    requires 0 < L.size
    ensures WfBlocks([], L, total)
  {
  }

  lemma ClearOfLog(blocks: seq<int>, L: Layout, total: nat)
    requires WfBlocks(blocks, L, total) && 0 < L.size
    ensures L.start !in BlockSet(blocks)
  {
    assert L.InLog(L.start);
  }

  /** `tr'` is `tr` followed by the disk images of the first `k` rounds of `write_log`. */
  ghost predicate LogImages(tr: seq<Disk>, tr': seq<Disk>, d: Disk, L: Layout, st: Disk, blocks: seq<int>, k: nat)
    requires WfShape(d, L) && WfBlocks(blocks, L, |d|) && k <= |blocks| && |st| == |d|
  {
    && Extends(tr, tr', k)
    && forall j :: |tr| <= j < |tr'| ==> tr'[j] == LogCopy(d, L, st, blocks, j - |tr| + 1)
  }

  lemma LogImagesNone(tr: seq<Disk>, d: Disk, L: Layout, st: Disk, blocks: seq<int>)
    requires WfShape(d, L) && WfBlocks(blocks, L, |d|) && |st| == |d|
    ensures LogImages(tr, tr, d, L, st, blocks, 0)
  {
  }

  lemma LogImagesStep(tr: seq<Disk>, tr': seq<Disk>, d: Disk, L: Layout, st: Disk, blocks: seq<int>, k: nat)
    requires WfShape(d, L) && WfBlocks(blocks, L, |d|) && k < |blocks| && |st| == |d|
    requires LogImages(tr, tr', d, L, st, blocks, k)
    ensures LogImages(tr, tr' + [LogCopy(d, L, st, blocks, k + 1)], d, L, st, blocks, k + 1)
  {
  }

  /** `tr'` is `tr` followed by the disk images of the first `k` rounds of `install_trans`. */
  ghost predicate InstallImages(tr: seq<Disk>, tr': seq<Disk>, d: Disk, L: Layout, blocks: seq<int>, k: nat)
    requires WfShape(d, L) && WfBlocks(blocks, L, |d|) && k <= |blocks|
  {
    && Extends(tr, tr', k)
    && forall j :: |tr| <= j < |tr'| ==> tr'[j] == Install(d, L, blocks, j - |tr| + 1)
  }

  lemma InstallImagesNone(tr: seq<Disk>, d: Disk, L: Layout, blocks: seq<int>)
    requires WfShape(d, L) && WfBlocks(blocks, L, |d|)
    ensures InstallImages(tr, tr, d, L, blocks, 0)
  {
  }

  lemma InstallImagesStep(tr: seq<Disk>, tr': seq<Disk>, d: Disk, L: Layout, blocks: seq<int>, k: nat)
    requires WfShape(d, L) && WfBlocks(blocks, L, |d|) && k < |blocks|
    requires InstallImages(tr, tr', d, L, blocks, k)
    ensures InstallImages(tr, tr' + [Install(d, L, blocks, k + 1)], d, L, blocks, k + 1)
  {
  }

  lemma NoBlocks(blocks: seq<int>)
    requires blocks == []
    ensures BlockSet(blocks) == {}
  {
  }

  lemma BlockSetStep(blocks: seq<int>, i: nat)
    requires i < |blocks| && 0 <= blocks[i]
    requires forall j, k :: 0 <= j < k < |blocks| ==> blocks[j] != blocks[k]
    ensures BlockSet(blocks[i..]) <= BlockSet(blocks)
    ensures blocks[i] in BlockSet(blocks[i..])
    ensures BlockSet(blocks[i + 1..]) == BlockSet(blocks[i..]) - {blocks[i]}
  {
    var s, t := blocks[i..], blocks[i + 1..];
    assert forall j :: 0 <= j < |t| ==> t[j] == s[j + 1] == blocks[i + 1 + j];
    assert s[0] == blocks[i];
    forall b | b in BlockSet(s) - {blocks[i]} ensures b in BlockSet(t) {
      var j :| 0 <= j < |s| && s[j] == b;
      assert t[j - 1] == b;
    }
  }

  ghost predicate Extends(tr: seq<Disk>, tr': seq<Disk>, k: nat) {
    |tr'| == |tr| + k && tr <= tr'
  }
}
