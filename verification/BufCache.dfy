/**
  The buffer cache: NBUF buffers on a doubly linked ring, most recently released first,
  over one disk.  Besides the fields of the source, the class carries two ghost fields:
  `ring`, the buffers in ring order, and `store`, the plain block store that the cache
  and the disk together implement (the last logged or written content of each block).
  */
module BufCache {
  import opened Common
  import opened RedoLog

  const HEAD: nat := NBUF    // index of bcache.head in the link arrays
  const NODEV := -1
  const ROOTDEV := 1

  datatype Buf = Buf(dev: int, blockno: nat, busy: bool, valid: bool, dirty: bool, data: Block) {
    predicate Is(b: nat) { dev == ROOTDEV && blockno == b }
    predicate Pinned() { busy || dirty }
  }

  datatype BgetResult = Got(i: nat) | WouldSleep(i: nat) | NoBuffers

  // ----- the ring

  /** One lap around the ring, from HEAD to HEAD. */
  ghost function Lap(ring: seq<nat>): (r: seq<nat>) {
    [HEAD] + ring + [HEAD]
  }

  /** `next` and `prev` link HEAD and the buffers in the order of `ring`. */
  ghost predicate Linked(next: seq<nat>, prev: seq<nat>, ring: seq<nat>) {
    && |next| == |prev| == NBUF + 1
    && (forall m :: 0 <= m < |ring| ==> ring[m] < NBUF)
    && (forall m, k :: 0 <= m < k < |ring| ==> ring[m] != ring[k])
    && (forall m :: 0 <= m <= |ring| ==> LinkedAt(next, prev, Lap(ring), m))
  }

  ghost predicate LinkedAt(next: seq<nat>, prev: seq<nat>, lap: seq<nat>, m: nat)
    requires |next| == |prev|
  {
    && m + 1 < |lap| && lap[m] < |next| && lap[m + 1] < |next|
    && next[lap[m]] == lap[m + 1] && prev[lap[m + 1]] == lap[m]
  }

  /** `ring` lists every buffer exactly once. */
  ghost predicate Permutation(ring: seq<nat>) {
    && |ring| == NBUF
    && (forall m :: 0 <= m < NBUF ==> ring[m] < NBUF)
    && (forall m, k :: 0 <= m < k < NBUF ==> ring[m] != ring[k])
    && (forall i :: 0 <= i < NBUF ==> i in ring)
  }

  /** The position of `i`. */
  ghost function Position(ring: seq<nat>, i: nat): (k: nat)
    requires i in ring
    ensures k < |ring| && ring[k] == i && i !in ring[..k]
  {
    if ring[0] == i then 0 else 1 + Position(ring[1..], i)
  }

  /** The ring once `i` has been moved to the front. */
  ghost function ToFront(ring: seq<nat>, i: nat): (r: seq<nat>)
    requires i in ring
  {
    var k := Position(ring, i);
    [i] + (ring[..k] + ring[k + 1..])
  }

  lemma Unlink(next: seq<nat>, prev: seq<nat>, ring: seq<nat>, k: nat)
    requires Linked(next, prev, ring) && k < |ring|
    ensures next[ring[k]] < |prev| && prev[ring[k]] < |next|
    ensures var i := ring[k];
      Linked(next[prev[i] := next[i]], prev[next[i] := prev[i]], ring[..k] + ring[k + 1..])
  {
    var i, lap := ring[k], Lap(ring);
    var rest := ring[..k] + ring[k + 1..];
    assert LinkedAt(next, prev, lap, k) && LinkedAt(next, prev, lap, k + 1);
    assert lap[k + 1] == i;
    var next', prev' := next[prev[i] := next[i]], prev[next[i] := prev[i]];
    forall m | 0 <= m <= |rest| ensures LinkedAt(next', prev', Lap(rest), m) {
      if m < k {
        assert LinkedAt(next, prev, lap, m);
        assert Lap(rest)[m] == lap[m] && Lap(rest)[m + 1] == lap[m + 1];
      } else if m == k {
        assert Lap(rest)[m] == lap[k] && Lap(rest)[m + 1] == lap[k + 2];
      } else {
        assert LinkedAt(next, prev, lap, m + 1);
        assert Lap(rest)[m] == lap[m + 1] && Lap(rest)[m + 1] == lap[m + 2];
      }
    }
  }

  lemma PushFront(next: seq<nat>, prev: seq<nat>, ring: seq<nat>, i: nat)
    requires Linked(next, prev, ring) && i < NBUF && i !in ring
    ensures next[HEAD] < |prev|
    ensures Linked(next[i := next[HEAD]][HEAD := i], prev[i := HEAD][next[HEAD] := i], [i] + ring)
  {
    var lap := Lap(ring);
    assert LinkedAt(next, prev, lap, 0);
    var next', prev' := next[i := next[HEAD]][HEAD := i], prev[i := HEAD][next[HEAD] := i];
    forall m | 0 <= m <= |ring| + 1 ensures LinkedAt(next', prev', Lap([i] + ring), m) {
      if m >= 2 {
        assert LinkedAt(next, prev, lap, m - 1);
        assert Lap([i] + ring)[m] == lap[m - 1] && Lap([i] + ring)[m + 1] == lap[m];
      }
    }
  }

  /** Where the buffers are once `i` is in front. */
  lemma ToFrontAt(ring: seq<nat>, i: nat, m: nat)
    requires Permutation(ring) && i < NBUF && m < NBUF
    ensures var r, k := ToFront(ring, i), Position(ring, i);
      |r| == NBUF && r[0] == i && (m < k ==> r[m + 1] == ring[m]) && (m > k ==> r[m] == ring[m])
  {
  }

  /** Moving to the front keeps every buffer on the ring exactly once. */
  lemma ToFrontPermutes(ring: seq<nat>, i: nat)
    requires Permutation(ring) && i < NBUF
    ensures Permutation(ToFront(ring, i))
  {
    var k := Position(ring, i);
    var r := ToFront(ring, i);
    forall j | 0 <= j < NBUF ensures j in r {
      assert j in ring;
      var m :| 0 <= m < |ring| && ring[m] == j;
      assert r[if m < k then m + 1 else if m == k then 0 else m] == j;
    }
  }

  /** `x` comes before `y` on the ring. */
  ghost predicate Before(ring: seq<nat>, x: nat, y: nat) {
    exists a, b :: 0 <= a < b < |ring| && ring[a] == x && ring[b] == y
  }

  /** The buffer that moves is in front, and the others keep their order. */
  lemma ToFrontOrder(ring: seq<nat>, i: nat, x: nat, y: nat)
    requires Permutation(ring) && i < NBUF && x != i && y != i && Before(ring, x, y)
    ensures ToFront(ring, i)[0] == i && Before(ToFront(ring, i), x, y)
  {
    hide ToFront;
    var k := Position(ring, i);
    var r := ToFront(ring, i);
    var a, b :| 0 <= a < b < |ring| && ring[a] == x && ring[b] == y;
    ToFrontAt(ring, i, a);
    ToFrontAt(ring, i, b);
    var a', b' := if a < k then a + 1 else a, if b < k then b + 1 else b;
    assert 0 <= a' < b' < |r| && r[a'] == x && r[b'] == y;
  }

  // ----- the contents

  /** At most one buffer per block. */
  ghost predicate Unique(s: seq<Buf>) {
    forall i, j :: 0 <= i < j < |s| && s[i].dev == ROOTDEV && s[j].dev == ROOTDEV ==> s[i].blockno != s[j].blockno
  }

  ghost predicate WellFlagged(s: seq<Buf>, total: nat) {
    forall i :: 0 <= i < |s| ==>
      && (s[i].dev == NODEV || s[i].dev == ROOTDEV)
      && (s[i].dev == NODEV ==> !s[i].busy && !s[i].valid && !s[i].dirty)
      && (s[i].dirty ==> s[i].valid)
      && (s[i].dev == ROOTDEV ==> s[i].blockno < total && (s[i].valid || s[i].busy))
  }

  /** A released buffer agrees with the store; a clean one's disk block does as well. */
  ghost predicate Coherent(s: seq<Buf>, disk: Disk, store: Disk) {
    && |store| == |disk|
    && WellFlagged(s, |disk|)
    && (forall i :: 0 <= i < |s| && s[i].dev == ROOTDEV && !s[i].busy ==> s[i].data == store[s[i].blockno])
    && (forall i :: 0 <= i < |s| && s[i].dev == ROOTDEV && !s[i].dirty ==> disk[s[i].blockno] == store[s[i].blockno])
    && (forall b :: 0 <= b < |disk| && (forall i :: 0 <= i < |s| ==> !s[i].Is(b)) ==> disk[b] == store[b])
  }

  /** The blocks some process holds, and the blocks waiting for a commit. */
  ghost function HeldOf(s: seq<Buf>): (r: set<nat>) {
    set i | 0 <= i < |s| && s[i].busy :: s[i].blockno
  }

  ghost function DirtyOf(s: seq<Buf>): (r: set<nat>) {
    set i | 0 <= i < |s| && s[i].dirty :: s[i].blockno
  }

  /** The blocks of the first `k` buffers, all of which are in use. */
  lemma {:induction false} BlocksOfPrefix(s: seq<Buf>, k: nat)
    requires k <= |s| && Unique(s)
    requires forall i :: 0 <= i < k ==> s[i].dev == ROOTDEV
    ensures |set i | 0 <= i < k :: s[i].blockno| == k
  {
    if k > 0 {
      BlocksOfPrefix(s, k - 1);
      assert (set i | 0 <= i < k :: s[i].blockno) == (set i | 0 <= i < k - 1 :: s[i].blockno) + {s[k - 1].blockno};
    }
  }

  /** When every buffer is pinned, NBUF different blocks are held or dirty. */
  lemma AllPinned(s: seq<Buf>, total: nat)
    requires |s| == NBUF && Unique(s) && WellFlagged(s, total)
    requires forall i :: 0 <= i < NBUF ==> s[i].Pinned()
    ensures |HeldOf(s) + DirtyOf(s)| == NBUF
  {
    BlocksOfPrefix(s, NBUF);
    assert HeldOf(s) + DirtyOf(s) == set i | 0 <= i < NBUF :: s[i].blockno;
  }

  ghost function PinnedIn(s: seq<Buf>, k: nat): (r: set<nat>)
    requires k <= |s|
  {
    set i | 0 <= i < k && s[i].Pinned() :: s[i].blockno
  }

  /** While some buffer is not pinned, fewer than NBUF blocks are held or dirty. */
  lemma SomeUnpinned(s: seq<Buf>, p: nat)
    requires |s| == NBUF && p < NBUF && !s[p].Pinned()
    ensures |HeldOf(s) + DirtyOf(s)| < NBUF
  {
    PinnedSize(s, NBUF, p);
    assert HeldOf(s) + DirtyOf(s) == PinnedIn(s, NBUF);
  }

  /** So it is when a block that is not dirty gets a buffer that was free or its own. */
  lemma GotMeansRoom(s: seq<Buf>, i: nat, b: nat)
    requires |s| == NBUF && i < NBUF && !s[i].busy && (s[i].Is(b) || !s[i].Pinned())
    ensures b !in DirtyOf(s) ==> |HeldOf(s) + DirtyOf(s)| < NBUF
  {
    if s[i].Is(b) && s[i].dirty {
      assert b in DirtyOf(s);
    } else {
      SomeUnpinned(s, i);
    }
  }

  lemma {:induction false} PinnedSize(s: seq<Buf>, k: nat, p: nat)
    requires k <= |s| && p < |s| && !s[p].Pinned()
    ensures |PinnedIn(s, k)| <= if p < k then k - 1 else k
  {
    if k > 0 {
      PinnedSize(s, k - 1, p);
      assert PinnedIn(s, k) == PinnedIn(s, k - 1) + if s[k - 1].Pinned() then {s[k - 1].blockno} else {};
    }
  }

  // ----- how the contents react to a change of one buffer

  /** Which blocks are held and dirty after buffer `p` becomes `x`. */
  lemma SetsAfter(s: seq<Buf>, p: nat, x: Buf, total: nat)
    requires p < |s| && Unique(s) && WellFlagged(s, total)
    ensures HeldOf(s[p := x])
         == (HeldOf(s) - if s[p].busy then {s[p].blockno} else {}) + if x.busy then {x.blockno} else {}
    ensures DirtyOf(s[p := x])
         == (DirtyOf(s) - if s[p].dirty then {s[p].blockno} else {}) + if x.dirty then {x.blockno} else {}
  {
    var t := s[p := x];
    assert forall j :: 0 <= j < |s| && j != p ==> t[j] == s[j];
    HeldKept(s, t, p);
    DirtyKept(s, t, p);
  }

  lemma HeldKept(s: seq<Buf>, t: seq<Buf>, p: nat)
    requires p < |s| == |t| && Unique(s)
    requires forall j :: 0 <= j < |s| && j != p ==> t[j] == s[j]
    requires forall j :: 0 <= j < |s| && s[j].busy ==> s[j].dev == ROOTDEV
    ensures HeldOf(t) == (HeldOf(s) - if s[p].busy then {s[p].blockno} else {}) + if t[p].busy then {t[p].blockno} else {}
  {
    forall b | b in HeldOf(s) && (s[p].busy ==> b != s[p].blockno) ensures b in HeldOf(t) {
      var j :| 0 <= j < |s| && s[j].busy && s[j].blockno == b;
      assert t[j] == s[j];
    }
    forall b | b in HeldOf(t) && (t[p].busy ==> b != t[p].blockno)
      ensures b in HeldOf(s) && (s[p].busy ==> b != s[p].blockno)
    {
      var j :| 0 <= j < |t| && t[j].busy && t[j].blockno == b;
      assert j != p && t[j] == s[j];
    }
  }

  lemma DirtyKept(s: seq<Buf>, t: seq<Buf>, p: nat)
    requires p < |s| == |t| && Unique(s)
    requires forall j :: 0 <= j < |s| && j != p ==> t[j] == s[j]
    requires forall j :: 0 <= j < |s| && s[j].dirty ==> s[j].dev == ROOTDEV
    ensures DirtyOf(t) == (DirtyOf(s) - if s[p].dirty then {s[p].blockno} else {}) + if t[p].dirty then {t[p].blockno} else {}
  {
    forall b | b in DirtyOf(s) && (s[p].dirty ==> b != s[p].blockno) ensures b in DirtyOf(t) {
      var j :| 0 <= j < |s| && s[j].dirty && s[j].blockno == b;
      assert t[j] == s[j];
    }
    forall b | b in DirtyOf(t) && (t[p].dirty ==> b != t[p].blockno)
      ensures b in DirtyOf(s) && (s[p].dirty ==> b != s[p].blockno)
    {
      var j :| 0 <= j < |t| && t[j].dirty && t[j].blockno == b;
      assert j != p && t[j] == s[j];
    }
  }

  /** A buffer that keeps its block, and an update of that block's entries on disk and in the store. */
  lemma CoherentAfter(s: seq<Buf>, p: nat, x: Buf, disk: Disk, store: Disk, disk': Disk, store': Disk)
    requires p < |s| && Unique(s) && Coherent(s, disk, store)
    requires x.dev == s[p].dev == ROOTDEV && x.blockno == s[p].blockno
    requires |disk'| == |store'| == |disk|
    requires forall b :: 0 <= b < |disk| && b != x.blockno ==> disk'[b] == disk[b] && store'[b] == store[b]
    requires (x.dirty ==> x.valid) && (x.valid || x.busy)
    requires !x.busy ==> x.data == store'[x.blockno]
    requires !x.dirty ==> disk'[x.blockno] == store'[x.blockno]
    ensures Unique(s[p := x]) && Coherent(s[p := x], disk', store')
  {
    var t := s[p := x];
    assert forall j :: 0 <= j < |s| && j != p ==> t[j] == s[j] && !s[j].Is(x.blockno);
    forall b | 0 <= b < |disk| && (forall i :: 0 <= i < |t| ==> !t[i].Is(b)) ensures disk'[b] == store'[b] {
      assert !t[p].Is(b);
      assert forall i :: 0 <= i < |s| ==> !s[i].Is(b);
    }
  }

  /** A clean, released buffer is given to a block that was not cached. */
  lemma CoherentRecycle(s: seq<Buf>, p: nat, b: nat, disk: Disk, store: Disk)
    requires p < |s| && Unique(s) && Coherent(s, disk, store) && b < |disk|
    requires !s[p].Pinned() && forall j :: 0 <= j < |s| ==> !s[j].Is(b)
    ensures var t := s[p := Buf(ROOTDEV, b, true, false, false, s[p].data)];
      Unique(t) && Coherent(t, disk, store)
  {
    var t := s[p := Buf(ROOTDEV, b, true, false, false, s[p].data)];
    assert forall j :: 0 <= j < |s| && j != p ==> t[j] == s[j];
    forall c | 0 <= c < |disk| && (forall i :: 0 <= i < |t| ==> !t[i].Is(c)) ensures disk[c] == store[c] {
      if !s[p].Is(c) {
        assert forall i :: 0 <= i < |s| ==> !s[i].Is(c) by {
          forall i | 0 <= i < |s| ensures !s[i].Is(c) { assert i != p ==> !t[i].Is(c); }
        }
      }
    }
  }

  class Bcache {
    var disk: Disk
    const buf: array<Buf>
    const next: array<nat>
    const prev: array<nat>
    ghost var ring: seq<nat>
    ghost var store: Disk
    ghost var trace: seq<Disk>    // the disk after each block write so far

    ghost predicate Valid()
      reads this, buf, next, prev
    {
      && next != prev && |store| == |disk|
      && buf.Length == NBUF && next.Length == prev.Length == NBUF + 1
      && Linked(next[..], prev[..], ring) && Permutation(ring)
      && Unique(buf[..]) && Coherent(buf[..], disk, store)
    }

    /** Buffer `i` has been handed out by `Bread` for block `b`. */
    ghost predicate Holds(i: nat, b: nat)
      reads this, buf
    {
      i < buf.Length && buf[i].Is(b) && buf[i].busy && buf[i].valid
    }

    ghost function Held(): (r: set<nat>)
      reads this, buf
    {
      HeldOf(buf[..])
    }

    ghost function Dirty(): (r: set<nat>)
      reads this, buf
    {
      DirtyOf(buf[..])
    }

    /** `binit`: every buffer unassigned, the ring in reverse order of the array. */
    constructor (d: Disk)
      ensures Valid() && fresh(buf) && fresh(next) && fresh(prev)
      ensures disk == d && store == d && trace == []
      ensures Held() == {} && Dirty() == {}
      ensures forall m :: 0 <= m < NBUF ==> ring[m] == NBUF - 1 - m
    {
      disk, store, trace := d, d, [];
      buf := new Buf[NBUF](_ => Buf(NODEV, 0, false, false, false, []));
      next := new nat[NBUF + 1](_ => HEAD);
      prev := new nat[NBUF + 1](_ => HEAD);
      new;
      ring := [];
      var b: nat := 0;
      assert LinkedAt(next[..], prev[..], Lap(ring), 0);
      while b < NBUF
        invariant 0 <= b <= NBUF
        invariant Linked(next[..], prev[..], ring)
        invariant |ring| == b && forall m :: 0 <= m < b ==> ring[m] == b - 1 - m
        modifies next, prev, this`ring
      {
        PushFront(next[..], prev[..], ring, b);
        ghost var n0: seq<nat>, p0: seq<nat> := next[..], prev[..];
        next[b] := next[HEAD];
        prev[b] := HEAD;
        prev[next[HEAD]] := b;
        next[HEAD] := b;
        assert next[..] == n0[b := n0[HEAD]][HEAD := b];
        assert prev[..] == p0[b := HEAD][n0[HEAD] := b];
        ring := [b] + ring;
        b := b + 1;
      }
      forall i | 0 <= i < NBUF ensures i in ring {
        assert ring[NBUF - 1 - i] == i;
      }
    }

    /** The first loop of `bget`: the buffer of block `b`, or HEAD. */
    method Find(b: nat) returns (p: nat)
      requires Valid()
      ensures p < NBUF ==> buf[p].Is(b)
      ensures p >= NBUF ==> p == HEAD && forall j :: 0 <= j < NBUF ==> !buf[j].Is(b)
    {
      ghost var lap := Lap(ring);
      assert LinkedAt(next[..], prev[..], lap, 0);
      p := next[HEAD];
      ghost var m := 0;
      while p != HEAD
        invariant 0 <= m <= NBUF && p == lap[m + 1]
        invariant forall k :: 0 <= k < m ==> !buf[ring[k]].Is(b)
        decreases NBUF - m
      {
        assert p == ring[m];
        if buf[p].dev == ROOTDEV && buf[p].blockno == b {
          return;
        }
        assert LinkedAt(next[..], prev[..], lap, m + 1);
        p := next[p];
        m := m + 1;
      }
      forall j | 0 <= j < NBUF ensures !buf[j].Is(b) {
        assert j in ring;
      }
    }

    /** The second loop of `bget`: the least recently released buffer that is neither busy nor dirty, or HEAD. */
    method Victim() returns (p: nat)
      requires Valid()
      ensures p < NBUF ==>
        && !buf[p].Pinned()
        && (forall m, k :: 0 <= m < k < NBUF && ring[m] == p ==> buf[ring[k]].Pinned())
      ensures p >= NBUF ==> p == HEAD && forall j :: 0 <= j < NBUF ==> buf[j].Pinned()
    {
      ghost var lap := Lap(ring);
      assert LinkedAt(next[..], prev[..], lap, NBUF);
      p := prev[HEAD];
      ghost var m := NBUF;
      while p != HEAD
        invariant 0 <= m <= NBUF && p == lap[m]
        invariant forall k :: m <= k < NBUF ==> buf[ring[k]].Pinned()
        decreases m
      {
        assert p == ring[m - 1];
        if !buf[p].busy && !buf[p].dirty {
          return;
        }
        assert LinkedAt(next[..], prev[..], lap, m - 1);
        p := prev[p];
        m := m - 1;
      }
      forall j | 0 <= j < NBUF ensures buf[j].Pinned() {
        assert j in ring;
      }
    }

    /**
      One pass of `bget` under the cache lock.  `WouldSleep` is the pass that finds the block
      busy and sleeps, after which the source starts over; `NoBuffers` is the panic.
      */
    method Bget(b: nat) returns (r: BgetResult)
      requires Valid() && b < |disk|
      modifies buf
      ensures Valid()
      ensures r.Got? ==>
        && r.i < NBUF && b !in old(Held()) && !old(buf[r.i].busy)
        && buf[r.i].Is(b) && buf[r.i].busy
        && Held() == old(Held()) + {b} && Dirty() == old(Dirty())
        && (buf[r.i].valid ==> buf[r.i].data == store[b])
        && (forall j :: 0 <= j < NBUF && j != r.i ==> buf[j] == old(buf[j]))
      // a hit keeps the buffer, a miss recycles the least recently released clean one
      ensures r.Got? && old(buf[r.i]).Is(b) ==> buf[r.i] == old(buf[r.i]).(busy := true)
      ensures r.Got? && !old(buf[r.i]).Is(b) ==>
        && (forall j :: 0 <= j < NBUF ==> !old(buf[j]).Is(b))
        && !old(buf[r.i]).Pinned() && !buf[r.i].valid && !buf[r.i].dirty
        && (forall m, k :: 0 <= m < k < NBUF && ring[m] == r.i ==> old(buf[ring[k]]).Pinned())
      ensures r.WouldSleep? ==> b in old(Held()) && buf[..] == old(buf[..])
      ensures r.NoBuffers? ==>
        && buf[..] == old(buf[..]) && b !in Held() + Dirty()
        && |Held() + Dirty()| == NBUF
    {
      ghost var s := buf[..];
      var p := Find(b);
      if p != HEAD {
        if buf[p].busy {
          assert s[p].busy;
          return WouldSleep(p);
        }
        buf[p] := buf[p].(busy := true);
        CoherentAfter(s, p, buf[p], disk, store, disk, store);
        SetsAfter(s, p, buf[p], |disk|);
        NotHeld(s, p);
        assert buf[..] == s[p := buf[p]];
        return Got(p);
      }
      p := Victim();
      NotCached(s, b, |disk|);
      if p != HEAD {
        buf[p] := Buf(ROOTDEV, b, true, false, false, buf[p].data);
        CoherentRecycle(s, p, b, disk, store);
        SetsAfter(s, p, buf[p], |disk|);
        assert buf[..] == s[p := buf[p]];
        return Got(p);
      }
      AllPinned(s, |disk|);
      return NoBuffers;
    }

    /** The disk transfer of `iderw`: writes a dirty buffer, reads an invalid one. */
    method Iderw(i: nat, ghost b: nat)
      requires Valid() && i < NBUF && buf[i].Is(b) && buf[i].busy
      requires !buf[i].valid || buf[i].dirty
      modifies this`disk, this`store, this`trace, buf
      ensures Valid() && Holds(i, b) && !buf[i].dirty
      ensures forall j :: 0 <= j < NBUF && j != i ==> buf[j] == old(buf[j])
      ensures old(buf[i].dirty) ==>
        && disk == old(disk)[b := old(buf[i].data)] && store == old(store)[b := old(buf[i].data)]
        && trace == old(trace) + [disk] && buf[i].data == old(buf[i].data)
      ensures !old(buf[i].dirty) ==>
        disk == old(disk) && store == old(store) && trace == old(trace) && buf[i].data == store[b]
      ensures Held() == old(Held()) && Dirty() == old(Dirty()) - {b}
    {
      ghost var s, d0, st0 := buf[..], disk, store;
      if buf[i].dirty {
        disk := disk[buf[i].blockno := buf[i].data];
        store := store[b := buf[i].data];
        trace := trace + [disk];
        buf[i] := buf[i].(valid := true, dirty := false);
      } else {
        buf[i] := buf[i].(valid := true, data := disk[buf[i].blockno]);
      }
      CoherentAfter(s, i, buf[i], d0, st0, disk, store);
      SetsAfter(s, i, buf[i], |disk|);
      DirtyOnce(s, i);
      assert buf[..] == s[i := buf[i]];
    }

    /** `bread`: the buffer handed out carries the latest logged or written content of the block. */
    method Bread(b: nat) returns (r: BgetResult)
      requires Valid() && b < |disk|
      modifies this`disk, this`store, this`trace, buf
      ensures Valid() && disk == old(disk) && store == old(store) && trace == old(trace)
      ensures Dirty() == old(Dirty())
      ensures r.Got? ==>
        && Holds(r.i, b) && buf[r.i].data == store[b]
        && b !in old(Held()) && Held() == old(Held()) + {b} && !old(buf[r.i].busy)
        && (forall j :: 0 <= j < NBUF && j != r.i ==> buf[j] == old(buf[j]))
      ensures r.WouldSleep? ==> b in old(Held()) && buf[..] == old(buf[..])
      ensures r.NoBuffers? ==>
        && buf[..] == old(buf[..]) && b !in Held() + Dirty()
        && |Held() + Dirty()| == NBUF
      // a block that nobody pins gets a buffer exactly when fewer than NBUF blocks are pinned
      ensures r.Got? && b !in old(Dirty()) ==> |old(Held() + Dirty())| < NBUF
    {
      ghost var s := buf[..];
      r := Bget(b);
      if r.Got? {
        GotMeansRoom(s, r.i, b);
      }
      if r.Got? && !buf[r.i].valid {
        NotDirtyInvalid(buf[..], r.i, |disk|);
        Iderw(r.i, b);
      }
    }

    /** A holder fills its buffer. */
    method Fill(i: nat, data: Block, ghost b: nat)
      requires Valid() && Holds(i, b)
      modifies buf
      ensures Valid() && Holds(i, b) && buf[i].data == data && buf[i].dirty == old(buf[i].dirty)
      ensures forall j :: 0 <= j < NBUF && j != i ==> buf[j] == old(buf[j])
      ensures Held() == old(Held()) && Dirty() == old(Dirty())
    {
      ghost var s := buf[..];
      buf[i] := buf[i].(data := data);
      CoherentAfter(s, i, buf[i], disk, store, disk, store);
      SetsAfter(s, i, buf[i], |disk|);
      assert buf[..] == s[i := buf[i]];
      assert s[i].busy;
    }

    /** `bwrite`: the buffer's content reaches the disk and becomes the block's content. */
    method Bwrite(i: nat, ghost b: nat)
      requires Valid() && Holds(i, b)
      modifies this`disk, this`store, this`trace, buf
      ensures Valid() && Holds(i, b) && !buf[i].dirty && buf[i].data == old(buf[i].data)
      ensures disk == old(disk)[b := old(buf[i].data)] && store == old(store)[b := old(buf[i].data)]
      ensures trace == old(trace) + [disk]
      ensures forall j :: 0 <= j < NBUF && j != i ==> buf[j] == old(buf[j])
      ensures Held() == old(Held()) && Dirty() == old(Dirty()) - {b}
    {
      MarkDirty(i, b);
      Iderw(i, b);
    }

    /** Setting B_DIRTY, as `bwrite` and `log_write` do: the buffer's content becomes the block's content. */
    method MarkDirty(i: nat, ghost b: nat)
      requires Valid() && Holds(i, b)
      modifies this`store, buf
      ensures Valid() && Holds(i, b) && buf[i] == old(buf[i]).(dirty := true)
      ensures store == old(store)[b := buf[i].data]
      ensures forall j :: 0 <= j < NBUF && j != i ==> buf[j] == old(buf[j])
      ensures Held() == old(Held()) && Dirty() == old(Dirty()) + {b}
    {
      ghost var s, st0 := buf[..], store;
      buf[i] := buf[i].(dirty := true);
      store := store[b := buf[i].data];
      CoherentAfter(s, i, buf[i], disk, st0, disk, store);
      SetsAfter(s, i, buf[i], |disk|);
      assert buf[..] == s[i := buf[i]];
      assert s[i].busy;
    }

    /** `brelse`: the buffer is released and moves to the front of the ring. */
    method Brelse(i: nat, ghost b: nat)
      requires Valid() && Holds(i, b) && buf[i].data == store[b]
      modifies this`ring, buf, next, prev
      ensures Valid()
      ensures ring == ToFront(old(ring), i)
      ensures buf[i] == old(buf[i]).(busy := false)
      ensures forall j :: 0 <= j < NBUF && j != i ==> buf[j] == old(buf[j])
      ensures Held() == old(Held()) - {b} && Dirty() == old(Dirty())
    {
      Relink(i);
      ghost var s := buf[..];
      buf[i] := buf[i].(busy := false);
      CoherentAfter(s, i, buf[i], disk, store, disk, store);
      SetsAfter(s, i, buf[i], |disk|);
      assert buf[..] == s[i := buf[i]];
    }

    /** The pointer surgery of `brelse`. */
    method Relink(i: nat)
      requires Valid() && i < NBUF
      modifies this`ring, next, prev
      ensures Valid() && ring == ToFront(old(ring), i)
    {
      ghost var k := Position(ring, i);
      ghost var rest := ring[..k] + ring[k + 1..];
      Unlink(next[..], prev[..], ring, k);
      ghost var n0: seq<nat>, p0: seq<nat> := next[..], prev[..];
      prev[next[i]] := prev[i];
      next[prev[i]] := next[i];
      assert next[..] == n0[p0[i] := n0[i]] && prev[..] == p0[n0[i] := p0[i]];
      ghost var n1: seq<nat>, p1: seq<nat> := next[..], prev[..];
      PushFront(n1, p1, rest, i);
      next[i] := next[HEAD];
      prev[i] := HEAD;
      prev[next[HEAD]] := i;
      next[HEAD] := i;
      assert next[..] == n1[i := n1[HEAD]][HEAD := i] && prev[..] == p1[i := HEAD][n1[HEAD] := i];
      ToFrontPermutes(ring, i);
      ring := [i] + rest;
    }
  }

  lemma NotHeld(s: seq<Buf>, p: nat)
    requires p < |s| && Unique(s) && s[p].dev == ROOTDEV && !s[p].busy
    requires forall j :: 0 <= j < |s| && s[j].busy ==> s[j].dev == ROOTDEV
    ensures s[p].blockno !in HeldOf(s)
  {
  }

  lemma NotCached(s: seq<Buf>, b: nat, total: nat)
    requires WellFlagged(s, total) && forall j :: 0 <= j < |s| ==> !s[j].Is(b)
    ensures b !in HeldOf(s) + DirtyOf(s)
  {
  }

  lemma DirtyOnce(s: seq<Buf>, p: nat)
    requires p < |s| && Unique(s) && s[p].dev == ROOTDEV
    requires forall j :: 0 <= j < |s| && s[j].dirty ==> s[j].dev == ROOTDEV
    ensures !s[p].dirty ==> s[p].blockno !in DirtyOf(s)
  {
  }

  lemma NotDirtyInvalid(s: seq<Buf>, p: nat, total: nat)
    requires p < |s| && Unique(s) && WellFlagged(s, total) && s[p].dev == ROOTDEV && !s[p].valid
    ensures s[p].blockno !in DirtyOf(s)
  {
  }
}
