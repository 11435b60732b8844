/** filewrite: a long write is cut into chunks, each of them one log transaction. */
module FileWrite {
  import opened Bytes
  import opened Common
  import opened Fs
  import GroupCommit
  import RedoLog

  const CHUNK := 6656      // ((LOGSIZE - 1 - 1 - 2) / 2) * 512

  lemma ChunkConstant()
    ensures CHUNK == (LOGSIZE - 1 - 1 - 2) / 2 * 512
  {
  }

  /** Done(n): all bytes written; Failed: -1; Halted: balloc's panic; ToDevice: the call went to a device driver. */
  datatype FileResult = Done(n: nat) | Failed | Halted | ToDevice

  // ----- how many blocks a write logs

  function One(b: bool): (n: nat) { if b then 1 else 0 }

  /** The blocks that a write of `n` bytes at `off` to a file of `size` bytes logs, bitmap blocks not counted. */
  function Cost(off: nat, n: nat, size: nat): (c: nat) {
    (if n == 0 then 0 else BlocksIn(off + n) - off / BSIZE) + One(Touches(size, off + n)) + One(off + n > size)
  }

  /** The blocks that it logs on a disk with one bitmap block. */
  function ChunkCost(off: nat, n: nat, size: nat): (c: nat) {
    Cost(off, n, size) + One(BlocksNeeded(size, off + n) > 0)
  }

  /** A chunk touches at most 14 file blocks, whatever its alignment, so it logs at most 17. */
  lemma ChunkSpan(off: nat, n: nat, size: nat)
    requires n <= CHUNK
    ensures n > 0 ==> BlocksIn(off + n) - off / BSIZE <= 14
    ensures Cost(off, n, size) <= 16 && ChunkCost(off, n, size) <= 17
  {
  }

  /**
    When a write stays within the blocks that begin_op reserves: it touches at most 10 file
    blocks if it stays in the file, 9 if it grows the file within its last block, 8 if it
    takes direct blocks, and 7 if it takes indirect ones.
    */
  lemma WithinReservation(off: nat, n: nat, size: nat)
    requires 0 < n
    ensures ChunkCost(off, n, size) <= MAXOPBLOCKS <==>
      BlocksIn(off + n) - off / BSIZE <= if off + n <= size then 10 else if BlocksIn(off + n) == BlocksIn(size) then 9
                                         else if off + n <= NDIRECT * BSIZE then 8 else 7
  {
    var end := off + n;
    if end <= size {
      assert BlocksIn(end) <= BlocksIn(size);
    } else {
      assert BlocksIn(size) <= BlocksIn(end);
      assert BlocksNeeded(size, end) > 0 <==> BlocksIn(size) < BlocksIn(end);
    }
  }

  /** The file blocks of a range that are allocated are as many different blocks. */
  lemma {:induction false} DataSetSize(sb: Superblock, blk: seq<Block>, inodes: seq<Inode>, owner: map<nat, Slot>, i: nat, lo: nat, hi: nat)
    requires Owned(sb, blk, inodes, owner) && i < |inodes| && |inodes[i].addrs| == NDIRECT + 1 && lo <= hi <= MAXFILE
    requires forall c :: lo <= c < hi ==> Addr(blk, inodes[i], c) != 0
    ensures |DataSet(blk, inodes[i], lo, hi)| == hi - lo
    decreases hi
  {
    hide OwnedBut, Addr;
    var s := DataSet(blk, inodes[i], lo, hi);
    if lo < hi {
      var t, a := DataSet(blk, inodes[i], lo, hi - 1), Addr(blk, inodes[i], hi - 1);
      DataSetSize(sb, blk, inodes, owner, i, lo, hi - 1);
      assert s == t + {a};
      forall c: nat | lo <= c < hi - 1 ensures Addr(blk, inodes[i], c) != a {
        DifferentBlocks(sb, blk, inodes, owner, i, c, hi - 1);
      }
      assert a !in t;
    } else {
      assert s == {};
    }
  }

  lemma DifferentBlocks(sb: Superblock, blk: seq<Block>, inodes: seq<Inode>, owner: map<nat, Slot>, i: nat, c: nat, d: nat)
    requires Owned(sb, blk, inodes, owner) && i < |inodes| && |inodes[i].addrs| == NDIRECT + 1 && c < d < MAXFILE
    requires Addr(blk, inodes[i], c) != 0
    ensures Addr(blk, inodes[i], c) != Addr(blk, inodes[i], d)
  {
    hide OwnedBut, Addr;
    if Addr(blk, inodes[i], c) == Addr(blk, inodes[i], d) {
      NoSharing(sb, blk, inodes, owner, Data(i, c), Data(i, d));
    }
  }

  lemma DataSetPlace(sb: Superblock, blk: seq<Block>, inodes: seq<Inode>, owner: map<nat, Slot>, i: nat, lo: nat, hi: nat)
    requires Owned(sb, blk, inodes, owner) && i < |inodes| && |inodes[i].addrs| == NDIRECT + 1 && hi <= MAXFILE
    requires forall c :: lo <= c < hi ==> Addr(blk, inodes[i], c) != 0
    ensures forall x :: x in DataSet(blk, inodes[i], lo, hi) ==> x in owner && owner[x].Data? && sb.Nmeta() <= x
  {
    hide OwnedBut, Addr;
    forall x | x in DataSet(blk, inodes[i], lo, hi) ensures x in owner && owner[x].Data? && sb.Nmeta() <= x {
      var c: nat :| lo <= c < hi && c < MAXFILE && Addr(blk, inodes[i], c) == x;
      SlotInRange(sb, blk, inodes, owner, Data(i, c));
    }
  }

  /** The bitmap blocks lie behind the inode blocks and before the data. */
  lemma BitmapPlace(sb: Superblock, new': set<nat>)
    requires sb.Valid() && forall a :: a in new' ==> a < sb.size
    ensures forall m :: m in BitmapOf(sb, new') ==> sb.bmapstart <= m < sb.Nmeta()
    ensures sb.size <= BPB ==> |BitmapOf(sb, new')| == One(new' != {})
  {
    forall m | m in BitmapOf(sb, new') ensures sb.bmapstart <= m < sb.Nmeta() {
      var a :| a in new' && BBlock(sb, a) == m;
      InBitmap(sb, a);
    }
    if sb.size <= BPB {
      if a :| a in new' {
        assert BBlock(sb, a) in BitmapOf(sb, new');
        assert BitmapOf(sb, new') == {sb.bmapstart};
      } else {
        assert BitmapOf(sb, new') == {};
      }
    }
  }

  /** Exactly how many blocks a write logs that starts on an empty group. */
  lemma WriteCost(sb: Superblock, blk: seq<Block>, inodes: seq<Inode>, owner0: map<nat, Slot>, owner: map<nat, Slot>, logged: set<nat>,
                  i: nat, size: nat, off: nat, n: nat)
    requires Owned(sb, blk, inodes, owner) && i < |inodes| && FileOk(blk, inodes[i]) && off <= size && inodes[i].size == Max(size, off + n)
    requires WriteLogged(sb, owner0, {}, owner, logged, blk, inodes[i], i, size, off, off + n)
    ensures |logged| == Cost(off, n, size) + |BitmapOf(sb, owner.Keys - owner0.Keys)|
    ensures sb.size <= BPB ==> |logged| == ChunkCost(off, n, size)
  {
    hide OwnedBut, BitmapOf, DataSet, BlocksNeeded, Touches, WriteLogged, TouchedIndirect, Allocated, TouchedEnd, BlocksIn, Cost, IBlock;
    OwnedBlocks(sb, blk, inodes, owner);
    LoggedCount(sb, blk, inodes, owner0, owner, logged, i, size, off, n);
    AllThere(blk, inodes[i], off, n);
    DataSetSize(sb, blk, inodes, owner, i, off / BSIZE, TouchedEnd(off, off + n));
    IndirectPlace(sb, blk, inodes, owner, i, size, off + n);
    CostIs(off, n, size, |DataSet(blk, inodes[i], off / BSIZE, TouchedEnd(off, off + n))|, |TouchedIndirect(inodes[i], size, off + n)|, One(off + n > size));
    GrownSize(sb, owner0, owner, logged, blk, inodes[i], i, size, off, off + n);
    LoggedIs(sb, owner0, owner, logged, blk, inodes[i], i, size, off, off + n);
    NewSize(owner0, owner);
    NewInRange(sb, blk, inodes, owner, owner.Keys - owner0.Keys);
    BitmapPlace(sb, owner.Keys - owner0.Keys);
  }

  lemma LoggedCount(sb: Superblock, blk: seq<Block>, inodes: seq<Inode>, owner0: map<nat, Slot>, owner: map<nat, Slot>, logged: set<nat>,
                    i: nat, size: nat, off: nat, n: nat)
    requires Owned(sb, blk, inodes, owner) && i < |inodes| && FileOk(blk, inodes[i]) && off <= size && inodes[i].size == Max(size, off + n)
    requires WriteLogged(sb, owner0, {}, owner, logged, blk, inodes[i], i, size, off, off + n)
    ensures |logged| == |BitmapOf(sb, owner.Keys - owner0.Keys)| + |DataSet(blk, inodes[i], off / BSIZE, TouchedEnd(off, off + n))|
                        + |TouchedIndirect(inodes[i], size, off + n)| + One(off + n > size)
  {
    hide OwnedBut, Addr, BitmapOf, DataSet, BlocksNeeded, Touches, WriteLogged, TouchedIndirect, Allocated, TouchedEnd, BlocksIn, IBlock;
    OwnedBlocks(sb, blk, inodes, owner);
    var lo, hi, end := off / BSIZE, TouchedEnd(off, off + n), off + n;
    var ino := if end > size then {IBlock(sb, i)} else {};
    var fresh' := owner.Keys - owner0.Keys;
    AllThere(blk, inodes[i], off, n);
    DataSetPlace(sb, blk, inodes, owner, i, lo, hi);
    NewInRange(sb, blk, inodes, owner, fresh');
    BitmapPlace(sb, fresh');
    IndirectPlace(sb, blk, inodes, owner, i, size, end);
    InodePlace(sb, i);
    var data, ind := DataSet(blk, inodes[i], lo, hi), TouchedIndirect(inodes[i], size, end);
    FourKinds(BitmapOf(sb, fresh'), data, ind, ino, sb.bmapstart, sb.Nmeta(), owner);
    LoggedIs(sb, owner0, owner, logged, blk, inodes[i], i, size, off, end);
    assert logged == BitmapOf(sb, fresh') + (data + ind + ino);
    assert |ino| == One(end > size);
  }

  lemma CostIs(off: nat, n: nat, size: nat, d: nat, i: nat, o: nat)
    requires d == (if n == 0 then 0 else BlocksIn(off + n) - off / BSIZE) && i == One(Touches(size, off + n)) && o == One(off + n > size)
    ensures d + i + o == Cost(off, n, size)
  {
  }

  lemma LoggedIs(sb: Superblock, owner0: map<nat, Slot>, owner: map<nat, Slot>, logged: set<nat>, blk: seq<Block>, ino: Inode, i: nat,
                 size: nat, off: nat, end: nat)
    requires |ino.addrs| == NDIRECT + 1 && WriteLogged(sb, owner0, {}, owner, logged, blk, ino, i, size, off, end)
    ensures owner0.Keys <= owner.Keys
    ensures logged == BitmapOf(sb, owner.Keys - owner0.Keys)
                      + (DataSet(blk, ino, off / BSIZE, TouchedEnd(off, end)) + TouchedIndirect(ino, size, end) + if end > size then {IBlock(sb, i)} else {})
  {
    hide BitmapOf, DataSet, BlocksNeeded, Touches, TouchedIndirect;
  }

  /** Bitmap, data, indirect and inode blocks are all different. */
  lemma FourKinds(bits: set<nat>, data: set<nat>, ind: set<nat>, ino: set<nat>, lo: nat, hi: nat, owner: map<nat, Slot>)
    requires forall x :: x in bits ==> lo <= x < hi
    requires forall x :: x in data ==> hi <= x && x in owner && owner[x].Data?
    requires forall x :: x in ind ==> hi <= x && x in owner && owner[x].Indirect?
    requires lo <= hi && forall x :: x in ino ==> x < lo
    ensures |bits + (data + ind + ino)| == |bits| + |data| + |ind| + |ino|
  {
    DisjointSize(data, ind);
    DisjointSize(data + ind, ino);
    DisjointSize(bits, data + ind + ino);
  }

  lemma NewInRange(sb: Superblock, blk: seq<Block>, inodes: seq<Inode>, owner: map<nat, Slot>, new': set<nat>)
    requires Owned(sb, blk, inodes, owner) && new' <= owner.Keys
    ensures forall a :: a in new' ==> a < sb.size
  {
    forall a | a in new' ensures a < sb.size {
      assert a in owner;
    }
  }

  lemma NewSize(owner0: map<nat, Slot>, owner: map<nat, Slot>)
    requires owner0.Keys <= owner.Keys
    ensures owner.Keys - owner0.Keys != {} <==> |owner.Keys| > |owner0.Keys|
  {
    DisjointSize(owner0.Keys, owner.Keys - owner0.Keys);
    assert owner0.Keys + (owner.Keys - owner0.Keys) == owner.Keys;
  }

  /** The blocks of the range written are all allocated. */
  lemma AllThere(blk: seq<Block>, ino: Inode, off: nat, n: nat)
    requires FileOk(blk, ino) && off + n <= ino.size
    ensures off / BSIZE <= TouchedEnd(off, off + n) <= MAXFILE
    ensures TouchedEnd(off, off + n) - off / BSIZE == if n == 0 then 0 else BlocksIn(off + n) - off / BSIZE
    ensures forall c :: off / BSIZE <= c < TouchedEnd(off, off + n) ==> Addr(blk, ino, c) != 0
  {
    hide Addr;
    forall c | off / BSIZE <= c < TouchedEnd(off, off + n) ensures Addr(blk, ino, c) != 0 {
      assert c * BSIZE < off + n;
    }
  }

  lemma IndirectPlace(sb: Superblock, blk: seq<Block>, inodes: seq<Inode>, owner: map<nat, Slot>, i: nat, size: nat, end: nat)
    requires Owned(sb, blk, inodes, owner) && i < |inodes| && FileOk(blk, inodes[i]) && inodes[i].size == Max(size, end)
    ensures var ind := TouchedIndirect(inodes[i], size, end);
      |ind| == One(Touches(size, end)) && forall x :: x in ind ==> x in owner && owner[x].Indirect? && sb.Nmeta() <= x
  {
    hide OwnedBut, Addr;
    if Touches(size, end) {
      SlotInRange(sb, blk, inodes, owner, Indirect(i));
    }
  }

  lemma InodePlace(sb: Superblock, i: nat)
    requires sb.Valid() && i < sb.ninodes
    ensures IBlock(sb, i) < sb.bmapstart < sb.Nmeta()
  {
  }

  /** Two writes in a row are one write of both. */
  lemma PatchTwice(c: seq<Byte>, off: nat, a: seq<Byte>, b: seq<Byte>)
    requires off <= |c|
    ensures Patched(Patched(c, off, a), off + |a|, b) == Patched(c, off, a + b)
  {
    var p := Patched(c, off, a);
    assert p[..off + |a|] == c[..off] + a;
    if off + |a| + |b| < |p| {
      assert p[off + |a| + |b|..] == c[off + |a| + |b|..];
    }
  }

  /** The other files have the inodes and the contents they had. */
  ghost predicate OthersKept(blk0: seq<Block>, inodes0: seq<Inode>, blk: seq<Block>, inodes: seq<Inode>, inum: nat) {
    && |inodes| == |inodes0| && FilesFit(blk0, inodes0) && FilesFit(blk, inodes)
    && forall j :: 0 <= j < |inodes| && j != inum ==> inodes[j] == inodes0[j] && Content(blk, inodes[j]) == Content(blk0, inodes0[j])
  }

  class OpenFile {
    const fs: FileSystem
    const inum: nat
    var off: nat

    constructor (fs: FileSystem, inum: nat)
      ensures this.fs == fs && this.inum == inum && off == 0
    {
      this.fs, this.inum, this.off := fs, inum, 0;
    }

    /** Where the k-th chunk of a write of `n` bytes starts, relative to the first, and how long it is. */
    static function ChunkAt(k: nat): (r: nat) { k * CHUNK }
    static function ChunkLen(k: nat, n: nat): (r: nat) {
      if n <= ChunkAt(k) then 0 else if n - ChunkAt(k) < CHUNK then n - ChunkAt(k) else CHUNK
    }

    /** How much of a write of `n` bytes at `off` lies in the chunks that end within the largest file. */
    static function Reach(off: nat, n: nat): (r: nat) {
      if off + n <= MAXBYTES then n else if off > MAXBYTES then 0 else ChunkAt((MAXBYTES - off) / CHUNK)
    }

    /**
      The FD_INODE branch of filewrite.  However the write is cut up, the content ends as one
      write of everything, or of the `done` bytes before the chunk that writei refused.  Which
      of the four outcomes it is depends on the type, the offset, the size and the free blocks
      at the start: a write that fits is done.  `groups` lists the blocks that each transaction
      logged, alone in its group: at most 16 and the bitmap, and on a disk with one bitmap block
      exactly what ChunkCost says.
      */
    method Filewrite(src: seq<Byte>) returns (r: FileResult, ghost done: nat, ghost groups: seq<set<nat>>)
      requires fs.Quiet() && inum < |fs.inodes| && off < WORD && |src| < WORD / 2
      modifies this`off, fs
      ensures r.ToDevice? <==> src != [] && old(fs.inodes[inum].typ) == T_DEV
      ensures r.Done? <==>
        || src == []
        || (&& old(fs.inodes[inum].typ) != T_DEV && old(off) <= old(fs.inodes[inum].size) && old(off) + |src| <= MAXBYTES
            && BlocksNeeded(old(fs.inodes[inum].size), old(off) + |src|) <= |FreeBlocks(fs.sb, old(fs.blk))|)
      ensures r.Failed? <==>
        && src != [] && old(fs.inodes[inum].typ) != T_DEV
        && (|| old(off) > old(fs.inodes[inum].size)
            || (&& old(off) + |src| > MAXBYTES
                && BlocksNeeded(old(fs.inodes[inum].size), old(off) + Reach(old(off), |src|)) <= |FreeBlocks(fs.sb, old(fs.blk))|))
      ensures r.Halted? <==>
        && src != [] && old(fs.inodes[inum].typ) != T_DEV && old(off) <= old(fs.inodes[inum].size)
        && |FreeBlocks(fs.sb, old(fs.blk))| < BlocksNeeded(old(fs.inodes[inum].size), old(off) + Reach(old(off), |src|))
      ensures forall k :: 0 <= k < |groups| ==> GroupOk(fs.sb, groups[k], old(off), old(fs.inodes[inum].size), k, |src|)
      ensures !r.Halted? ==> fs.Quiet() && |fs.inodes| == old(|fs.inodes|) && done <= |src|
      ensures r.Halted? ==> BlocksOk(fs.sb, fs.blk) && AllUsed(fs.sb, fs.blk, fs.sb.size)
      ensures r.Done? ==> r.n == done == |src|
      ensures r.ToDevice? ==> done == 0
      ensures r.Failed? ==>
        && done == (if old(off) > old(fs.inodes[inum].size) then 0 else Reach(old(off), |src|))
        && done < |src| && (off > fs.inodes[inum].size || off + (if |src| - done < CHUNK then |src| - done else CHUNK) > MAXBYTES)
      ensures !r.Halted? ==>
        && off == old(off) + done && |groups| == (done + CHUNK - 1) / CHUNK && (done < |src| ==> done == ChunkAt(|groups|))
        && (done > 0 ==>
              && old(off) <= old(fs.inodes[inum].size)
              && Content(fs.blk, fs.inodes[inum]) == Patched(old(Content(fs.blk, fs.inodes[inum])), old(off), src[..done]))
        && (done == 0 ==> fs.blk == old(fs.blk) && fs.inodes == old(fs.inodes))
        && OthersKept(old(fs.blk), old(fs.inodes), fs.blk, fs.inodes, inum)
    {
      hide Content, Patched, AllUsed, FileSystem.Quiet, BlocksOk, BitmapBlocks, Cost, ChunkCost, GroupOk, FileOk, FreeBlocks, BlocksNeeded,
        Progress, Reach, FilesFit, ChunkAt, ChunkLen, OthersKept;
      groups, done := [], 0;
      QuietFiles(fs);
      ghost var blk0, inodes0 := fs.blk, fs.inodes;
      ProgressStart(fs.sb, blk0, inodes0, inum, off, src);
      var i := 0;
      while i < |src|
        invariant 0 <= i <= |src| && fs.Quiet() && off == old(off) + i && off < WORD
        invariant Progress(fs.sb, blk0, inodes0, fs.blk, fs.inodes, inum, old(off), src, i, groups)
      {
        ghost var group;
        ProgressFacts(fs.sb, blk0, inodes0, fs.blk, fs.inodes, inum, old(off), src, i, groups);
        var w: WriteResult;
        w, group := NextChunk(src, i, old(off), blk0, inodes0, groups);
        done := i;
        match w {
          case Device => return ToDevice, done, groups;
          case OutOfBlocks => return Halted, done, groups;
          case Refused => return Failed, done, groups;
          case Wrote(m) =>
            groups := groups + [group];
            i := i + m;
        }
      }
      done := i;
      ProgressFacts(fs.sb, blk0, inodes0, fs.blk, fs.inodes, inum, old(off), src, i, groups);
      AllWritten(fs.sb, blk0, inodes0, fs.blk, fs.inodes, inum, old(off), src, groups);
      return Done(|src|), done, groups;
    }

    /** One round of the loop, against the state at the start of the call. */
    method NextChunk(src: seq<Byte>, i: nat, ghost off0: nat, ghost blk0: seq<Block>, ghost inodes0: seq<Inode>, ghost groups: seq<set<nat>>)
      returns (w: WriteResult, ghost group: set<nat>)
      requires fs.Quiet() && inum < |fs.inodes| && off == off0 + i < WORD && i < |src|
      requires Progress(fs.sb, blk0, inodes0, fs.blk, fs.inodes, inum, off0, src, i, groups)
      modifies this`off, fs
      ensures inum < |inodes0| && BlocksOk(fs.sb, blk0)
      ensures w.Wrote? ==>
        && fs.Quiet() && 0 < w.n <= |src| - i && off == off0 + i + w.n < WORD
        && Progress(fs.sb, blk0, inodes0, fs.blk, fs.inodes, inum, off0, src, i + w.n, groups + [group])
      ensures w.Device? || w.Refused? ==> fs.Quiet() && off == old(off) && fs.blk == old(fs.blk) && fs.inodes == old(fs.inodes)
      ensures w.Device? <==> inodes0[inum].typ == T_DEV
      ensures w.Refused? ==>
        && (off0 > inodes0[inum].size ==> i == 0 && off > fs.inodes[inum].size)
        && (off0 <= inodes0[inum].size ==>
              && OpenFile.Reach(off0, |src|) == i && off + (if |src| - i < CHUNK then |src| - i else CHUNK) > MAXBYTES
              && off0 + |src| > MAXBYTES && BlocksNeeded(inodes0[inum].size, off0 + i) <= |FreeBlocks(fs.sb, blk0)|)
      ensures w.OutOfBlocks? ==>
        && BlocksOk(fs.sb, fs.blk) && AllUsed(fs.sb, fs.blk, fs.sb.size) && off0 <= inodes0[inum].size
        && |FreeBlocks(fs.sb, blk0)| < BlocksNeeded(inodes0[inum].size, off0 + OpenFile.Reach(off0, |src|))
        && (off0 + |src| <= MAXBYTES ==> OpenFile.Reach(off0, |src|) == |src|)
    {
      hide Content, Patched, AllUsed, FileSystem.Quiet, BlocksOk, BitmapBlocks, Cost, ChunkCost, GroupOk, FileOk, FreeBlocks, BlocksNeeded,
        Progress, Reach, FilesFit, ChunkAt, ChunkLen, OthersKept;
      var n1 := |src| - i;
      if n1 > CHUNK {
        n1 := CHUNK;
      }
      ghost var blk1, inodes1 := fs.blk, fs.inodes;
      ProgressFacts(fs.sb, blk0, inodes0, blk1, inodes1, inum, off0, src, i, groups);
      Decided(fs.sb, blk0, inodes0, blk1, inodes1, inum, off0, src, i, groups, n1);
      w, group := Transaction(src[i..i + n1]);
      if w.Wrote? {
        QuietFiles(fs);
        ProgressStep(fs.sb, blk0, inodes0, blk1, inodes1, fs.blk, fs.inodes, inum, off0, src, i, groups, n1, group);
      }
    }

    /** begin_op on an empty group, writei, end_op. */
    method Transaction(chunk: seq<Byte>) returns (w: WriteResult, ghost group: set<nat>)
      requires fs.Quiet() && inum < |fs.inodes| && off < WORD && 0 < |chunk| <= CHUNK
      modifies this`off, fs
      ensures w.OutOfBlocks? ==> BlocksOk(fs.sb, fs.blk) && AllUsed(fs.sb, fs.blk, fs.sb.size)
      ensures !w.OutOfBlocks? ==> fs.Quiet() && |fs.inodes| == old(|fs.inodes|)
      ensures w.Device? <==> old(fs.inodes[inum].typ) == T_DEV
      ensures w.Refused? <==> !w.Device? && (old(off) > old(fs.inodes[inum].size) || old(off) + |chunk| > MAXBYTES)
      ensures w.Device? || w.Refused? ==> off == old(off) && fs.blk == old(fs.blk) && fs.inodes == old(fs.inodes)
      ensures w.Wrote? <==>
        && old(fs.inodes[inum].typ) != T_DEV && old(off) <= old(fs.inodes[inum].size) && old(off) + |chunk| <= MAXBYTES
        && BlocksNeeded(old(fs.inodes[inum].size), old(off) + |chunk|) <= |FreeBlocks(fs.sb, old(fs.blk))|
      ensures w.Wrote? ==>
        && w.n == |chunk| && off == old(off) + |chunk| && off < WORD
        && |group| <= Cost(old(off), |chunk|, old(fs.inodes[inum].size)) + |BitmapBlocks(fs.sb)|
        && (fs.sb.size <= BPB ==> |group| == ChunkCost(old(off), |chunk|, old(fs.inodes[inum].size)))
        && |old(Content(fs.blk, fs.inodes[inum]))| == old(fs.inodes[inum].size)
        && fs.inodes[inum].size == Max(old(fs.inodes[inum].size), off) && fs.inodes[inum].typ == old(fs.inodes[inum].typ)
        && Content(fs.blk, fs.inodes[inum]) == Patched(old(Content(fs.blk, fs.inodes[inum])), old(off), chunk)
        && |FreeBlocks(fs.sb, fs.blk)| == |FreeBlocks(fs.sb, old(fs.blk))| - BlocksNeeded(old(fs.inodes[inum].size), off)
        && OthersKept(old(fs.blk), old(fs.inodes), fs.blk, fs.inodes, inum)
    {
      hide OwnedBut, Patched, Allocated, DataSet, AllUsed, BlocksOk, WriteLogged, BitmapOf, BitmapBlocks, Cost, ChunkCost, FreeBlocks, BlocksNeeded;
      QuietFiles(fs);
      FreeCount(fs.sb, fs.blk, fs.inodes, fs.owner);
      ghost var owner0, size0 := fs.owner, fs.inodes[inum].size;
      group := {};
      fs.logged := {};
      w := fs.Writei(inum, chunk, off);
      if w.Wrote? {
        QuietFiles(fs);
        FreeCount(fs.sb, fs.blk, fs.inodes, fs.owner);
        GrownSize(fs.sb, owner0, fs.owner, fs.logged, fs.blk, fs.inodes[inum], inum, size0, off, off + |chunk|);
        WriteCost(fs.sb, fs.blk, fs.inodes, owner0, fs.owner, fs.logged, inum, size0, off, |chunk|);
        BitmapBound(fs.sb, fs.blk, fs.inodes, fs.owner, owner0);
        group := fs.logged;
        off := off + w.n;
      }
    }
  }

  /** With `i` bytes written, `free` of `free0` blocks are left. */
  ghost predicate Budget(size: nat, off: nat, i: nat, free0: nat, free: nat) {
    && (i > 0 ==> off <= size && off + i <= MAXBYTES)
    && (off <= size ==> free + BlocksNeeded(size, off + i) == free0)
  }

  /** Where Filewrite stands with `i` bytes of `src` written. */
  ghost predicate Progress(sb: Superblock, blk0: seq<Block>, inodes0: seq<Inode>, blk: seq<Block>, inodes: seq<Inode>,
                           inum: nat, off: nat, src: seq<Byte>, i: nat, groups: seq<set<nat>>)
  {
    && BlocksOk(sb, blk0) && BlocksOk(sb, blk) && Sofar(blk0, inodes0, blk, inodes, inum, off, src, i)
    && inodes[inum].typ == inodes0[inum].typ && (i > 0 ==> inodes0[inum].typ != T_DEV)
    && Budget(inodes0[inum].size, off, i, |FreeBlocks(sb, blk0)|, |FreeBlocks(sb, blk)|)
    && |groups| == (i + CHUNK - 1) / CHUNK && (i < |src| ==> i == OpenFile.ChunkAt(|groups|))
    && (forall k :: 0 <= k < |groups| ==> GroupOk(sb, groups[k], off, inodes0[inum].size, k, |src|))
  }

  lemma ProgressStart(sb: Superblock, blk: seq<Block>, inodes: seq<Inode>, inum: nat, off: nat, src: seq<Byte>)
    requires BlocksOk(sb, blk) && inum < |inodes| && FilesFit(blk, inodes)
    ensures Progress(sb, blk, inodes, blk, inodes, inum, off, src, 0, [])
  {
    hide BlocksOk, Sofar, FreeBlocks, GroupOk, FilesFit;
    SofarStart(blk, inodes, inum, off, src);
    SofarFacts(blk, inodes, blk, inodes, inum, off, src, 0);
  }

  lemma ProgressFacts(sb: Superblock, blk0: seq<Block>, inodes0: seq<Inode>, blk: seq<Block>, inodes: seq<Inode>,
                      inum: nat, off: nat, src: seq<Byte>, i: nat, groups: seq<set<nat>>)
    requires Progress(sb, blk0, inodes0, blk, inodes, inum, off, src, i, groups)
    ensures inum < |inodes| == |inodes0| && FilesFit(blk0, inodes0) && FilesFit(blk, inodes)
    ensures inodes[inum].typ == inodes0[inum].typ && (i > 0 ==> inodes0[inum].typ != T_DEV)
    ensures i > 0 ==> off <= inodes0[inum].size && Content(blk, inodes[inum]) == Patched(Content(blk0, inodes0[inum]), off, src[..i])
    ensures i == 0 ==> blk == blk0 && inodes == inodes0
    ensures |groups| == (i + CHUNK - 1) / CHUNK && (i < |src| ==> i == OpenFile.ChunkAt(|groups|))
    ensures forall k :: 0 <= k < |groups| ==> GroupOk(sb, groups[k], off, inodes0[inum].size, k, |src|)
    ensures OthersKept(blk0, inodes0, blk, inodes, inum)
  {
    hide BlocksOk, Sofar, FreeBlocks, GroupOk, FilesFit, Content, Patched, Budget, OthersKept;
    SofarFacts(blk0, inodes0, blk, inodes, inum, off, src, i);
  }

  /** What the chunk of `m` bytes behind the first `i` does decides the whole write, unless it goes well. */
  lemma Decided(sb: Superblock, blk0: seq<Block>, inodes0: seq<Inode>, blk: seq<Block>, inodes: seq<Inode>,
                inum: nat, off: nat, src: seq<Byte>, i: nat, groups: seq<set<nat>>, m: nat)
    requires Progress(sb, blk0, inodes0, blk, inodes, inum, off, src, i, groups) && i < |src|
    requires m == if |src| - i < CHUNK then |src| - i else CHUNK
    ensures inum < |inodes| == |inodes0| && BlocksOk(sb, blk0) && BlocksOk(sb, blk)
    ensures var size, size1, n, free0, free := inodes0[inum].size, inodes[inum].size, |src|, |FreeBlocks(sb, blk0)|, |FreeBlocks(sb, blk)|;
      && (off + i > size1 <==> off > size) && (off > size ==> i == 0)
      && (off <= size && off + i + m > MAXBYTES ==>
            OpenFile.Reach(off, n) == i && BlocksNeeded(size, off + i) <= free0 && off + n > MAXBYTES)
      && (off <= size && off + i + m <= MAXBYTES && free < BlocksNeeded(size1, off + i + m) ==>
            free0 < BlocksNeeded(size, off + OpenFile.Reach(off, n)) && (off + n <= MAXBYTES ==> OpenFile.Reach(off, n) == n))
  {
    hide BlocksOk, Sofar, FreeBlocks, GroupOk, FilesFit, Content, Patched, BlocksNeeded;
    SofarFacts(blk0, inodes0, blk, inodes, inum, off, src, i);
    SizesFit(blk0, inodes0, inum);
    var size := inodes0[inum].size;
    if off <= size && off + i + m <= MAXBYTES {
      NeededTwice(size, off + i, off + i + m);
      assert i + m <= OpenFile.Reach(off, |src|);
      NeededTwice(size, off + i + m, off + OpenFile.Reach(off, |src|));
    }
  }

  lemma SizesFit(blk: seq<Block>, inodes: seq<Inode>, inum: nat)
    requires FilesFit(blk, inodes) && inum < |inodes|
    ensures inodes[inum].size <= MAXBYTES
  {
  }

  lemma ProgressStep(sb: Superblock, blk0: seq<Block>, inodes0: seq<Inode>, blk1: seq<Block>, inodes1: seq<Inode>,
                     blk: seq<Block>, inodes: seq<Inode>, inum: nat, off: nat, src: seq<Byte>, i: nat, groups: seq<set<nat>>, m: nat, group: set<nat>)
    requires Progress(sb, blk0, inodes0, blk1, inodes1, inum, off, src, i, groups) && i < |src|
    requires m == if |src| - i < CHUNK then |src| - i else CHUNK
    requires BlocksOk(sb, blk1) && BlocksOk(sb, blk) && inum < |inodes| == |inodes1| && FilesFit(blk, inodes)
    requires off + i <= inodes1[inum].size && off + i + m <= MAXBYTES && inodes[inum].size == Max(inodes1[inum].size, off + i + m)
    requires inodes[inum].typ == inodes1[inum].typ != T_DEV
    requires Content(blk, inodes[inum]) == Patched(Content(blk1, inodes1[inum]), off + i, src[i..i + m])
    requires OthersKept(blk1, inodes1, blk, inodes, inum)
    requires |FreeBlocks(sb, blk)| == |FreeBlocks(sb, blk1)| - BlocksNeeded(inodes1[inum].size, off + i + m)
    requires |group| <= Cost(off + i, m, inodes1[inum].size) + |BitmapBlocks(sb)|
    requires sb.size <= BPB ==> |group| == ChunkCost(off + i, m, inodes1[inum].size)
    ensures Progress(sb, blk0, inodes0, blk, inodes, inum, off, src, i + m, groups + [group])
  {
    hide BlocksOk, Sofar, FreeBlocks, GroupOk, FilesFit, Content, Patched, BlocksNeeded, Cost, ChunkCost, BitmapBlocks;
    SofarFacts(blk0, inodes0, blk1, inodes1, inum, off, src, i);
    NextGroup(sb, group, off, inodes0[inum].size, |groups|, |src|, i, m);
    SofarStep(blk0, inodes0, blk1, inodes1, blk, inodes, inum, off, src, i, m);
    SofarFacts(blk0, inodes0, blk, inodes, inum, off, src, i + m);
    NeededTwice(inodes0[inum].size, off + i, off + i + m);
  }

  lemma AllWritten(sb: Superblock, blk0: seq<Block>, inodes0: seq<Inode>, blk: seq<Block>, inodes: seq<Inode>,
                   inum: nat, off: nat, src: seq<Byte>, groups: seq<set<nat>>)
    requires Progress(sb, blk0, inodes0, blk, inodes, inum, off, src, |src|, groups)
    ensures src != [] ==>
      && inum < |inodes0| && BlocksOk(sb, blk0)
      && off <= inodes0[inum].size && off + |src| <= MAXBYTES && OpenFile.Reach(off, |src|) == |src|
      && BlocksNeeded(inodes0[inum].size, off + |src|) <= |FreeBlocks(sb, blk0)|
  {
    hide BlocksOk, Sofar, FreeBlocks, GroupOk, FilesFit, Content, Patched, BlocksNeeded;
    SofarFacts(blk0, inodes0, blk, inodes, inum, off, src, |src|);
  }

  /** What the k-th transaction of a write of `n` bytes at `off` to a file of `size` bytes logs. */
  ghost predicate GroupOk(sb: Superblock, group: set<nat>, off: nat, size: nat, k: nat, n: nat) {
    var o, m := off + OpenFile.ChunkAt(k), OpenFile.ChunkLen(k, n);
    var grown := if k == 0 then size else Max(size, o);
    && |group| <= Cost(o, m, grown) + |BitmapBlocks(sb)| && |group| <= 16 + |BitmapBlocks(sb)|
    && (sb.size <= BPB ==> |group| == ChunkCost(o, m, grown) <= 17)
  }

  lemma NextGroup(sb: Superblock, group: set<nat>, off: nat, size: nat, k: nat, n: nat, i: nat, m: nat)
    requires i == OpenFile.ChunkAt(k) < n && m == OpenFile.ChunkLen(k, n)
    requires var grown := if i == 0 then size else Max(size, off + i);
      |group| <= Cost(off + i, m, grown) + |BitmapBlocks(sb)| && (sb.size <= BPB ==> |group| == ChunkCost(off + i, m, grown))
    ensures GroupOk(sb, group, off, size, k, n)
    ensures k + 1 == (i + m + CHUNK - 1) / CHUNK && (i + m < n ==> i + m == OpenFile.ChunkAt(k + 1))
  {
    hide Cost, ChunkCost, BitmapBlocks;
    ChunkSpan(off + i, m, if i == 0 then size else Max(size, off + i));
  }

  /** A write that succeeds takes exactly the blocks it needs. */
  lemma GrownSize(sb: Superblock, owner0: map<nat, Slot>, owner: map<nat, Slot>, logged: set<nat>, blk: seq<Block>, ino: Inode, i: nat,
                  size: nat, off: nat, end: nat)
    requires |ino.addrs| == NDIRECT + 1 && WriteLogged(sb, owner0, {}, owner, logged, blk, ino, i, size, off, end)
    ensures |owner.Keys| == |owner0.Keys| + BlocksNeeded(size, end)
  {
    hide BitmapOf, DataSet, BlocksNeeded, Touches;
  }

  lemma BitmapBound(sb: Superblock, blk: seq<Block>, inodes: seq<Inode>, owner: map<nat, Slot>, owner0: map<nat, Slot>)
    requires Owned(sb, blk, inodes, owner)
    ensures |BitmapOf(sb, owner.Keys - owner0.Keys)| <= |BitmapBlocks(sb)|
  {
    NewInRange(sb, blk, inodes, owner, owner.Keys - owner0.Keys);
    SubsetSize(BitmapOf(sb, owner.Keys - owner0.Keys), BitmapBlocks(sb));
  }

  ghost predicate FilesFit(blk: seq<Block>, inodes: seq<Inode>) {
    forall j :: 0 <= j < |inodes| ==> FileOk(blk, inodes[j]) && inodes[j].size <= MAXBYTES
  }

  /** The file has had the first `i` bytes of `src` written at `off`, and the other files are as they were. */
  ghost predicate Sofar(blk0: seq<Block>, inodes0: seq<Inode>, blk: seq<Block>, inodes: seq<Inode>, inum: nat, off: nat, src: seq<Byte>, i: nat) {
    && inum < |inodes| == |inodes0| && i <= |src| && FilesFit(blk0, inodes0) && FilesFit(blk, inodes)
    && inodes[inum].size == (if i == 0 then inodes0[inum].size else Max(inodes0[inum].size, off + i))
    && (i > 0 ==> off <= inodes0[inum].size && Content(blk, inodes[inum]) == Patched(Content(blk0, inodes0[inum]), off, src[..i]))
    && (i == 0 ==> blk == blk0 && inodes == inodes0)
    && OthersKept(blk0, inodes0, blk, inodes, inum)
  }

  lemma SofarStart(blk: seq<Block>, inodes: seq<Inode>, inum: nat, off: nat, src: seq<Byte>)
    requires inum < |inodes| && FilesFit(blk, inodes)
    ensures Sofar(blk, inodes, blk, inodes, inum, off, src, 0)
  {
    hide Allocated, Content, Patched;
  }

  lemma SofarFacts(blk0: seq<Block>, inodes0: seq<Inode>, blk: seq<Block>, inodes: seq<Inode>, inum: nat, off: nat, src: seq<Byte>, i: nat)
    requires Sofar(blk0, inodes0, blk, inodes, inum, off, src, i)
    ensures inum < |inodes| == |inodes0| && FilesFit(blk0, inodes0) && FilesFit(blk, inodes)
    ensures inodes[inum].size == (if i == 0 then inodes0[inum].size else Max(inodes0[inum].size, off + i))
    ensures i > 0 ==> off <= inodes0[inum].size && Content(blk, inodes[inum]) == Patched(Content(blk0, inodes0[inum]), off, src[..i])
    ensures i == 0 ==> blk == blk0 && inodes == inodes0
    ensures OthersKept(blk0, inodes0, blk, inodes, inum)
  {
    hide Allocated, Content, Patched;
  }

  lemma SofarStep(blk0: seq<Block>, inodes0: seq<Inode>, blk1: seq<Block>, inodes1: seq<Inode>, blk: seq<Block>, inodes: seq<Inode>,
                  inum: nat, off: nat, src: seq<Byte>, i: nat, m: nat)
    requires Sofar(blk0, inodes0, blk1, inodes1, inum, off, src, i) && 0 < m && i + m <= |src| && |inodes| == |inodes1|
    requires FilesFit(blk1, inodes1) && FilesFit(blk, inodes)
    requires off + i <= inodes1[inum].size && inodes[inum].size == Max(inodes1[inum].size, off + i + m)
    requires Content(blk, inodes[inum]) == Patched(Content(blk1, inodes1[inum]), off + i, src[i..i + m])
    requires OthersKept(blk1, inodes1, blk, inodes, inum)
    ensures Sofar(blk0, inodes0, blk, inodes, inum, off, src, i + m)
  {
    hide Allocated, Content, Patched;
    assert src[..i + m] == src[..i] + src[i..i + m];
    assert |Content(blk0, inodes0[inum])| == inodes0[inum].size;
    PatchMore(Content(blk0, inodes0[inum]), off, src[..i], src[i..i + m]);
  }

  lemma PatchMore(c: seq<Byte>, off: nat, a: seq<Byte>, b: seq<Byte>)
    ensures off <= |c| ==>
      && (a == [] ==> Patched(c, off, b) == Patched(c, off, a + b))
      && Patched(Patched(c, off, a), off + |a|, b) == Patched(c, off, a + b)
  {
    if off <= |c| {
      PatchTwice(c, off, a, b);
      assert a == [] ==> a + b == b;
    }
  }

  lemma QuietFiles(fs: FileSystem)
    requires fs.Quiet()
    ensures BlocksOk(fs.sb, fs.blk) && fs.sb.Valid() && |fs.inodes| == fs.sb.ninodes && FilesFit(fs.blk, fs.inodes)
  {
    OwnedBlocks(fs.sb, fs.blk, fs.inodes, fs.owner);
  }

  // ----- the transactions of filewrite in the log

  /** The k-th of them is the operation with number `first + k`. */
  ghost function OpBlocks(first: nat, groups: seq<set<nat>>): (m: map<nat, set<nat>>) {
    var ids := Interval(first, first + |groups|);
    map id | id in ids :: groups[id - first]
  }

  /**
    Whatever Filewrite's transactions log, on a disk with one bitmap block and with the log
    area that mkfs makes: if each runs alone in its group, no run of the log meets a panic.
    */
  lemma ChunksNeverPanic(sb: Superblock, groups: seq<set<nat>>, off: nat, size: nat, n: nat,
                         L: RedoLog.Layout, d: RedoLog.Disk, s: GroupCommit.State, steps: seq<GroupCommit.Step>, s': GroupCommit.State)
    requires sb.size <= BPB && forall k :: 0 <= k < |groups| ==> GroupOk(sb, groups[k], off, size, k, n)
    requires L.size == LOGSIZE && GroupCommit.Init(L, d, s) && GroupCommit.Run(L, s, steps, s')
    requires GroupCommit.AloneRun(L, s, steps, OpBlocks(s.nextOp, groups))
    ensures s'.panic.NoPanic?
  {
    hide GroupCommit.Init, GroupCommit.Run, GroupCommit.AloneRun, ChunkCost, Cost, BitmapBlocks;
    var blocks := OpBlocks(s.nextOp, groups);
    forall id | id in blocks ensures |blocks[id]| <= 17 {
      assert GroupOk(sb, groups[id - s.nextOp], off, size, id - s.nextOp, n);
    }
    GroupCommit.AloneNeverPanics(L, d, s, steps, s', blocks, 17);
  }

  // ----- a chunk can log more than begin_op reserves

  /** mkfs's layout. */
  const MKFS: Superblock := Superblock(1000, 941, 200, 32, 58)

  /**
    On a fresh file system, write 100 bytes and then a full chunk behind them: 14 data blocks,
    the indirect block, a bitmap block and the inode block are logged.
    */
  method SeventeenBlocks() returns (f: OpenFile, ghost group: set<nat>)
    ensures f.off == 100 + CHUNK && |group| == 17 > MAXOPBLOCKS
  {
    var fs := new FileSystem(MKFS);
    f := new OpenFile(fs, 1);
    var w, first := f.Transaction(Zeros(100));
    FirstNeeds();
    assert w.Wrote?;
    w, group := f.Transaction(Zeros(CHUNK));
    assert w.Wrote?;
  }

  lemma FirstNeeds()
    ensures MKFS.Valid() && BlocksNeeded(0, 100) == 1 && BlocksNeeded(100, 100 + CHUNK) == 14 && ChunkCost(100, CHUNK, 100) == 17
  {
  }
}
