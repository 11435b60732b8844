/**
  The on-disk redo log, as disk images.

  The disk is a sequence of blocks and a block write is atomic, so every moment at
  which the machine can lose power is named by the number of block writes done so
  far.  `CommitPrefix` and `RecoverPrefix` are the disk images after those writes of a
  commit and of a recovery.  The theorems say what a finished recovery finds.
  */
module RedoLog {
  import opened Common

  const BWORDS := 128     // 32-bit words in one block

  type Block = seq<int>
  type Disk = seq<Block>

  /** The log area: a header block followed by `size - 1` block copies. */
  datatype Layout = Layout(start: nat, size: nat) {
    predicate InLog(b: int) {
      start <= b < start + size
    }
  }

  /** A list of home blocks that fits the log area of a disk with `total` blocks. */
  ghost predicate WfBlocks(blocks: seq<int>, L: Layout, total: nat) {
    && |blocks| <= LOGSIZE
    && |blocks| < L.size
    && (forall i :: 0 <= i < |blocks| ==> 0 <= blocks[i] < total && !L.InLog(blocks[i]))
    && (forall i, j :: 0 <= i < j < |blocks| ==> blocks[i] != blocks[j])
  }

  ghost predicate WfShape(d: Disk, L: Layout) {
    && 0 < L.size
    && L.start + L.size <= |d|
    && |d[L.start]| == BWORDS
    && 0 <= d[L.start][0] <= LOGSIZE
  }

  /** The block numbers recorded in a header block. */
  function HeadBlocks(hd: Block): seq<int>
    requires |hd| == BWORDS && 0 <= hd[0] <= LOGSIZE
  {
    hd[1..1 + hd[0]]
  }

  ghost predicate WfDisk(d: Disk, L: Layout) {
    && WfShape(d, L)
    && WfBlocks(HeadBlocks(d[L.start]), L, |d|)
  }

  /** The header block after `write_head`: words beyond the list keep their old value. */
  function WithHead(hd: Block, blocks: seq<int>): (r: Block)
    requires |hd| == BWORDS && |blocks| <= LOGSIZE
    ensures |r| == BWORDS && 0 <= r[0] <= LOGSIZE && HeadBlocks(r) == blocks
  {
    [|blocks|] + blocks + hd[1 + |blocks|..]
  }

  /** The disk after the first `k` block copies of `install_trans`. */
  function Install(d: Disk, L: Layout, blocks: seq<int>, k: nat): (r: Disk)
    requires k <= |blocks| && L.start + k < |d|
    requires forall i :: 0 <= i < |blocks| ==> 0 <= blocks[i] < |d|
    ensures |r| == |d|
  {
    if k == 0 then d
    else
      var e := Install(d, L, blocks, k - 1);
      e[blocks[k - 1] := e[L.start + k]]
  }

  /** The disk after the first `k` block copies of `write_log`. */
  function LogCopy(d: Disk, L: Layout, store: Disk, blocks: seq<int>, k: nat): (r: Disk)
    requires k <= |blocks| && L.start + k < |d|
    requires forall i :: 0 <= i < |blocks| ==> 0 <= blocks[i] < |store|
    ensures |r| == |d|
  {
    if k == 0 then d
    else
      var e := LogCopy(d, L, store, blocks, k - 1);
      e[L.start + k := store[blocks[k - 1]]]
  }

  function SetHead(d: Disk, L: Layout, blocks: seq<int>): (r: Disk)
    requires L.start < |d| && |d[L.start]| == BWORDS && |blocks| <= LOGSIZE
    ensures |r| == |d| && |r[L.start]| == BWORDS
  {
    d[L.start := WithHead(d[L.start], blocks)]
  }

  /** The number of block writes of a whole recovery. */
  function RecoverWrites(d: Disk, L: Layout): (n: nat)
    requires L.start < |d| && |d[L.start]| == BWORDS && 0 <= d[L.start][0] <= LOGSIZE
  {
    d[L.start][0] + 1
  }

  /** The disk after the first `k` block writes of `recover_from_log`. */
  function RecoverPrefix(d: Disk, L: Layout, k: nat): (r: Disk)
    requires WfDisk(d, L)
    requires k <= RecoverWrites(d, L)
  {
    var blocks := HeadBlocks(d[L.start]);
    if k <= |blocks| then Install(d, L, blocks, k)
    else
      InstallAt(d, L, blocks, |blocks|, L.start);
      SetHead(Install(d, L, blocks, |blocks|), L, [])
  }

  function Recovered(d: Disk, L: Layout): (r: Disk)
    requires WfDisk(d, L)
  {
    RecoverPrefix(d, L, RecoverWrites(d, L))
  }

  /** The disk after the first `k` of the `2 n + 2` block writes of `commit`. */
  function CommitPrefix(d: Disk, L: Layout, store: Disk, blocks: seq<int>, k: nat): (r: Disk)
    requires WfDisk(d, L) && WfBlocks(blocks, L, |d|) && |store| == |d|
    requires k <= 2 * |blocks| + 2
  {
    hide LogCopy, Install, Overlay;
    var n := |blocks|;
    LogCopyAt(d, L, store, blocks, n, L.start);
    var logged := LogCopy(d, L, store, blocks, n);
    if k <= n then LogCopy(d, L, store, blocks, k)
    else if k <= 2 * n + 1 then Install(SetHead(logged, L, blocks), L, blocks, k - n - 1)
    else
      InstallAt(SetHead(logged, L, blocks), L, blocks, n, L.start);
      SetHead(Install(SetHead(logged, L, blocks), L, blocks, n), L, [])
  }

  /** Blocks outside the log area agree. */
  ghost predicate SameHome(d: Disk, e: Disk, L: Layout) {
    && |d| == |e|
    && forall b :: 0 <= b < |d| && !L.InLog(b) ==> d[b] == e[b]
  }

  /** The disk after a series of recoveries, the i-th of them cut off after `ks[i]` writes. */
  ghost function Survive(d: Disk, L: Layout, ks: seq<nat>): (r: Disk)
    requires WfDisk(d, L)
    ensures WfDisk(r, L) && |r| == |d|
    ensures SameHome(Recovered(r, L), Recovered(d, L), L)
    decreases |ks|
  {
    if ks == [] then d
    else
      var k := if ks[0] <= RecoverWrites(d, L) then ks[0] else RecoverWrites(d, L);
      RecoveryRestarts(d, L, k);
      Survive(RecoverPrefix(d, L, k), L, ks[1..])
  }

  // ----- what the block copies do to each block

  lemma {:induction false} InstallAt(d: Disk, L: Layout, blocks: seq<int>, k: nat, b: int)
    requires WfShape(d, L) && WfBlocks(blocks, L, |d|) && k <= |blocks| && 0 <= b < |d|
    ensures forall i :: 0 <= i < k && blocks[i] == b ==> Install(d, L, blocks, k)[b] == d[L.start + 1 + i]
    ensures (forall i :: 0 <= i < k ==> blocks[i] != b) ==> Install(d, L, blocks, k)[b] == d[b]
    ensures L.InLog(b) ==> Install(d, L, blocks, k)[b] == d[b]
  {
    if k > 0 {
      InstallAt(d, L, blocks, k - 1, b);
      InstallAt(d, L, blocks, k - 1, L.start + k);
    }
  }

  lemma {:induction false} LogCopyAt(d: Disk, L: Layout, store: Disk, blocks: seq<int>, k: nat, b: int)
    requires WfShape(d, L) && WfBlocks(blocks, L, |d|) && |store| == |d| && k <= |blocks| && 0 <= b < |d|
    ensures L.start < b <= L.start + k ==> LogCopy(d, L, store, blocks, k)[b] == store[blocks[b - L.start - 1]]
    ensures !(L.start < b <= L.start + k) ==> LogCopy(d, L, store, blocks, k)[b] == d[b]
  {
    if k > 0 {
      LogCopyAt(d, L, store, blocks, k - 1, b);
    }
  }

  // ----- recovery

  /** What a finished recovery leaves: the logged copies at home, an empty header. */
  lemma RecoveredAt(d: Disk, L: Layout, b: int)
    requires WfDisk(d, L) && 0 <= b < |d| && !L.InLog(b)
    ensures |Recovered(d, L)| == |d|
    ensures var blocks := HeadBlocks(d[L.start]);
      && (forall i :: 0 <= i < |blocks| && blocks[i] == b ==> Recovered(d, L)[b] == d[L.start + 1 + i])
      && ((forall i :: 0 <= i < |blocks| ==> blocks[i] != b) ==> Recovered(d, L)[b] == d[b])
  {
    var blocks := HeadBlocks(d[L.start]);
    InstallAt(d, L, blocks, |blocks|, b);
  }

  lemma RecoveredEmptiesHeader(d: Disk, L: Layout)
    requires WfDisk(d, L)
    ensures |Recovered(d, L)| == |d|
    ensures WfDisk(Recovered(d, L), L)
    ensures HeadBlocks(Recovered(d, L)[L.start]) == []
  {
    var blocks := HeadBlocks(d[L.start]);
    InstallAt(d, L, blocks, |blocks|, L.start);
  }

  /** A recovery cut off after any number of its writes can simply be run again. */
  lemma RecoveryRestarts(d: Disk, L: Layout, k: nat)
    requires WfDisk(d, L) && k <= RecoverWrites(d, L)
    ensures WfDisk(RecoverPrefix(d, L, k), L)
    ensures SameHome(Recovered(RecoverPrefix(d, L, k), L), Recovered(d, L), L)
  {
    var blocks := HeadBlocks(d[L.start]);
    if k == |blocks| + 1 {
      RecoveredEmptiesHeader(d, L);
      var e := Recovered(d, L);
      forall b | 0 <= b < |d| && !L.InLog(b) ensures Recovered(e, L)[b] == e[b] {
        RecoveredAt(e, L, b);
      }
      RecoveredEmptiesHeader(e, L);
    } else {
      InstallRestarts(d, L, k);
    }
  }

  lemma InstallRestarts(d: Disk, L: Layout, k: nat)
    requires WfDisk(d, L) && k <= |HeadBlocks(d[L.start])|
    ensures WfDisk(RecoverPrefix(d, L, k), L)
    ensures SameHome(Recovered(RecoverPrefix(d, L, k), L), Recovered(d, L), L)
  {
    var blocks := HeadBlocks(d[L.start]);
    var e := Install(d, L, blocks, k);
    InstallAt(d, L, blocks, k, L.start);
    RecoveredEmptiesHeader(d, L);
    RecoveredEmptiesHeader(e, L);
    forall b | 0 <= b < |d| && !L.InLog(b) ensures Recovered(e, L)[b] == Recovered(d, L)[b] {
      RecoveredAt(d, L, b);
      RecoveredAt(e, L, b);
      if i :| 0 <= i < |blocks| && blocks[i] == b {
        InstallAt(d, L, blocks, k, L.start + 1 + i);
      } else {
        InstallAt(d, L, blocks, k, b);
      }
    }
  }

  // ----- commit

  /** The home blocks once `blocks` carry their contents in `store`. */
  function Overlay(d: Disk, store: Disk, blocks: seq<int>): (r: Disk)
    requires |store| == |d|
    ensures |r| == |d|
  {
    seq(|d|, b requires 0 <= b < |d| => if b in blocks then store[b] else d[b])
  }

  /** Before the header write: the log area is scratch space, recovery changes nothing. */
  lemma CommitBeforeHeader(d: Disk, L: Layout, store: Disk, blocks: seq<int>, k: nat)
    requires WfDisk(d, L) && HeadBlocks(d[L.start]) == []
    requires WfBlocks(blocks, L, |d|) && |store| == |d| && k <= |blocks|
    ensures var e := CommitPrefix(d, L, store, blocks, k);
      WfDisk(e, L) && SameHome(Recovered(e, L), d, L)
  {
    var e := LogCopy(d, L, store, blocks, k);
    LogCopyAt(d, L, store, blocks, k, L.start);
    RecoveredEmptiesHeader(e, L);
    forall b | 0 <= b < |d| && !L.InLog(b) ensures Recovered(e, L)[b] == d[b] {
      LogCopyAt(d, L, store, blocks, k, b);
      RecoveredAt(e, L, b);
    }
  }

  /** The disk right after the header write: every later crash recovers to the new contents. */
  lemma InstallNone(d: Disk, L: Layout, blocks: seq<int>)
    requires L.start < |d| && forall i :: 0 <= i < |blocks| ==> 0 <= blocks[i] < |d|
    ensures Install(d, L, blocks, 0) == d
  {
  }

  lemma InstallNext(d: Disk, L: Layout, blocks: seq<int>, k: nat)
    requires k < |blocks| && L.start + k + 1 < |d| && forall i :: 0 <= i < |blocks| ==> 0 <= blocks[i] < |d|
    ensures var e := Install(d, L, blocks, k);
      Install(d, L, blocks, k + 1) == e[blocks[k] := e[L.start + k + 1]]
  {
  }

  lemma LogCopyNext(d: Disk, L: Layout, store: Disk, blocks: seq<int>, k: nat)
    requires k < |blocks| && L.start + k + 1 < |d| && forall i :: 0 <= i < |blocks| ==> 0 <= blocks[i] < |store|
    ensures LogCopy(d, L, store, blocks, k + 1) == LogCopy(d, L, store, blocks, k)[L.start + k + 1 := store[blocks[k]]]
  {
  }

  lemma HeaderWritten(d: Disk, L: Layout, store: Disk, blocks: seq<int>)
    requires WfDisk(d, L) && WfBlocks(blocks, L, |d|) && |store| == |d|
    ensures var e := CommitPrefix(d, L, store, blocks, |blocks| + 1);
      && WfDisk(e, L) && |e| == |d| && HeadBlocks(e[L.start]) == blocks
      && SameHome(Recovered(e, L), Overlay(d, store, blocks), L)
  {
    hide LogCopy, Install, Overlay;
    var n := |blocks|;
    LogCopyAt(d, L, store, blocks, n, L.start);
    var logged := LogCopy(d, L, store, blocks, n);
    var e := SetHead(logged, L, blocks);
    InstallNone(e, L, blocks);
    RecoveredEmptiesHeader(e, L);
    forall i | 0 <= i < n ensures e[L.start + 1 + i] == store[blocks[i]] {
      LogCopyAt(d, L, store, blocks, n, L.start + 1 + i);
    }
    forall b | 0 <= b < |d| && !L.InLog(b) ensures e[b] == d[b] {
      LogCopyAt(d, L, store, blocks, n, b);
    }
    CopiesInstall(d, L, store, blocks, e);
  }

  lemma CopiesInstall(d: Disk, L: Layout, store: Disk, blocks: seq<int>, e: Disk)
    requires |store| == |d| && |e| == |d|
    requires WfDisk(e, L) && HeadBlocks(e[L.start]) == blocks
    requires forall i :: 0 <= i < |blocks| ==> e[L.start + 1 + i] == store[blocks[i]]
    requires SameHome(e, d, L)
    ensures SameHome(Recovered(e, L), Overlay(d, store, blocks), L)
  {
    RecoveredEmptiesHeader(e, L);
    forall b | 0 <= b < |d| && !L.InLog(b) ensures Recovered(e, L)[b] == Overlay(d, store, blocks)[b] {
      RecoveredAt(e, L, b);
    }
  }

  lemma CommitAfterHeader(d: Disk, L: Layout, store: Disk, blocks: seq<int>, k: nat)
    requires WfDisk(d, L) && WfBlocks(blocks, L, |d|) && |store| == |d|
    requires |blocks| < k <= 2 * |blocks| + 2
    ensures var e := CommitPrefix(d, L, store, blocks, k);
      && WfDisk(e, L)
      && SameHome(Recovered(e, L), Overlay(d, store, blocks), L)
  {
    HeaderWritten(d, L, store, blocks);
    var h := CommitPrefix(d, L, store, blocks, |blocks| + 1);
    RecoveryRestarts(h, L, k - |blocks| - 1);
  }

  /**
    Crash atomicity: cut a commit off after any number `k` of its block writes, then cut off
    any number of recoveries after any number of their writes.  The recovery that finishes
    leaves the home blocks exactly as before the group, or exactly as after it, and it is
    "after" just when the first header write (write number n + 1) reached the disk.
    */
  lemma CrashAtomicity(d: Disk, L: Layout, store: Disk, blocks: seq<int>, k: nat, ks: seq<nat>)
    requires WfDisk(d, L) && HeadBlocks(d[L.start]) == []
    requires WfBlocks(blocks, L, |d|) && |store| == |d|
    requires k <= 2 * |blocks| + 2
    ensures var e := CommitPrefix(d, L, store, blocks, k);
      && WfDisk(e, L)
      && HeadBlocks(Recovered(Survive(e, L, ks), L)[L.start]) == []
      && SameHome(Recovered(Survive(e, L, ks), L),
                  if k <= |blocks| then d else Overlay(d, store, blocks), L)
  {
    if k <= |blocks| {
      CommitBeforeHeader(d, L, store, blocks, k);
    } else {
      CommitAfterHeader(d, L, store, blocks, k);
    }
    var e := CommitPrefix(d, L, store, blocks, k);
    RecoveredEmptiesHeader(Survive(e, L, ks), L);
  }
}
