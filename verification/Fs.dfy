/**
  The file system below directories: the block bitmap, the block map of an inode and file
  contents.  `blk` is the block store that the cache and the log present; `inodes` are the
  in-memory inodes and `dinodes` their copies in the inode blocks.

  `owner` is a ghost map that names, for every allocated data block, the one place that
  refers to it.  `logged` collects the blocks passed to log_write.
  */
module Fs {
  import opened Bytes
  import opened Common

  const NDIRECT := 12
  const NINDIRECT := 128
  const MAXFILE := 140
  const BPB := 4096
  const IPB := 8
  const T_DEV := 3

  datatype Superblock = Superblock(size: nat, nblocks: nat, ninodes: nat, inodestart: nat, bmapstart: nat) {
    /** Blocks below this one are metadata. */
    function Nmeta(): int { size - nblocks }

    ghost predicate Valid() {
      && 0 < size < WORD && 0 < Nmeta()
      && bmapstart + (size - 1) / BPB < Nmeta()
      && inodestart + ninodes / IPB < bmapstart
    }
  }

  function BBlock(sb: Superblock, b: nat): (r: nat) { b / BPB + sb.bmapstart }
  function IBlock(sb: Superblock, inum: nat): (r: nat) { inum / IPB + sb.inodestart }

  const DINODE := 64      // bytes of an inode on disk

  /** Every inode has a place of its own, DINODE bytes in a block of the inode area. */
  lemma InodePlaces(sb: Superblock, i: nat, j: nat)
    requires sb.Valid() && i < sb.ninodes && j < sb.ninodes
    ensures IPB * DINODE == BSIZE && sb.inodestart <= IBlock(sb, i) < sb.bmapstart && i % IPB * DINODE + DINODE <= BSIZE
    ensures IBlock(sb, i) == IBlock(sb, j) && i % IPB == j % IPB ==> i == j
    ensures (IBlock(sb, i) - sb.inodestart) * BSIZE + i % IPB * DINODE == i * DINODE
  {
  }

  datatype Inode = Inode(typ: int, major: int, minor: int, nlink: int, size: nat, addrs: seq<nat>)

  // ----- the bitmap

  ghost predicate BlocksOk(sb: Superblock, blk: seq<Block>) {
    && sb.Valid() && |blk| == sb.size
    && (forall b :: 0 <= b < |blk| ==> |blk[b]| == BSIZE)
  }

  lemma InBitmap(sb: Superblock, b: nat)
    requires sb.Valid() && b < sb.size
    ensures BBlock(sb, b) < sb.Nmeta() && BBlock(sb, b) < sb.size
  {
  }

  /** Block `b` is marked in use. */
  predicate Used(sb: Superblock, blk: seq<Block>, b: nat)
    requires BBlock(sb, b) < |blk| && |blk[BBlock(sb, b)]| == BSIZE
  {
    Bit(blk[BBlock(sb, b)][b % BPB / 8], b % 8)
  }

  /** The store after the bit of `b` has been set or cleared. */
  function Mark(sb: Superblock, blk: seq<Block>, b: nat, on: bool): (r: seq<Block>)
    requires BlocksOk(sb, blk) && b < sb.size
    ensures BlocksOk(sb, r)
  {
    InBitmap(sb, b);
    ByteWidth();
    var m, bi := BBlock(sb, b), b % BPB;
    BitsFit(blk[m][bi / 8], b % 8, 8);
    var x: Byte := if on then SetBit(blk[m][bi / 8], b % 8) else ClearBit(blk[m][bi / 8], b % 8);
    var was: Block := blk[m];
    var upd: Block := was[bi / 8 := x];
    blk[m := upd]
  }

  lemma MarkAt(sb: Superblock, blk: seq<Block>, b: nat, on: bool, c: nat)
    requires BlocksOk(sb, blk) && b < sb.size && c < sb.size
    ensures BBlock(sb, c) < sb.size
    ensures Used(sb, Mark(sb, blk, b, on), c) <==> if c == b then on else Used(sb, blk, c)
  {
    InBitmap(sb, b);
    InBitmap(sb, c);
    var m, bi := BBlock(sb, b), b % BPB;
    SetBitAt(blk[m][bi / 8], b % 8, c % 8);
    ClearBitAt(blk[m][bi / 8], b % 8, c % 8);
    SameBit(b, c);
  }

  /** Two block numbers with the same bitmap block, byte and bit are equal. */
  lemma SameBit(b: nat, c: nat)
    ensures b / BPB == c / BPB && b % BPB / 8 == c % BPB / 8 && b % 8 == c % 8 ==> b == c
  {
    ModEight(b);
    ModEight(c);
  }

  /** BPB is a multiple of 8. */
  lemma ModEight(b: nat)
    ensures b % BPB % 8 == b % 8
  {
    var r := b % BPB;
    assert b == 8 * (512 * (b / BPB)) + r;
    AddEights(512 * (b / BPB), r);
  }

  lemma {:induction false} AddEights(k: nat, r: nat)
    ensures (8 * k + r) % 8 == r % 8
    decreases k
  {
    if k > 0 {
      AddEights(k - 1, r);
      assert 8 * k + r == 8 * (k - 1) + r + 8;
    }
  }

  // ----- who refers to which block

  /** A place that can hold a block address. */
  datatype Slot = Data(inum: nat, bn: nat) | Indirect(inum: nat)

  ghost predicate InodesOk(sb: Superblock, inodes: seq<Inode>) {
    && |inodes| == sb.ninodes
    && (forall i :: 0 <= i < |inodes| ==> |inodes[i].addrs| == NDIRECT + 1)
  }

  /** The address of file block `bn`, or 0. */
  function Addr(blk: seq<Block>, ino: Inode, bn: nat): (a: nat)
    requires |ino.addrs| == NDIRECT + 1 && bn < MAXFILE
  {
    if bn < NDIRECT then ino.addrs[bn]
    else
      var ind := ino.addrs[NDIRECT];
      if ind == 0 || ind >= |blk| || |blk[ind]| != BSIZE then 0 else Get32(blk[ind], 4 * (bn - NDIRECT))
  }

  predicate IsSlot(inodes: seq<Inode>, s: Slot) {
    s.inum < |inodes| && |inodes[s.inum].addrs| == NDIRECT + 1 && (s.Data? ==> s.bn < MAXFILE)
  }

  function SlotAddr(blk: seq<Block>, inodes: seq<Inode>, s: Slot): (a: nat)
    requires IsSlot(inodes, s)
  {
    match s
    case Data(i, bn) => Addr(blk, inodes[i], bn)
    case Indirect(i) => inodes[i].addrs[NDIRECT]
  }

  /** The first `k` entries of the indirect block of inode `i` (none when `k` is 0). */
  predicate Skipped(s: Slot, i: nat, k: nat) {
    s.Data? && s.inum == i && NDIRECT <= s.bn < NDIRECT + k
  }

  /**
    The bitmap marks exactly the metadata and the blocks in `owner`; `owner` records for each
    of its blocks the one slot that refers to it.  While itrunc works through an indirect
    block, the entries already freed (`i`, `k`) are exempt.
    */
  ghost predicate OwnedBut(sb: Superblock, blk: seq<Block>, inodes: seq<Inode>, owner: map<nat, Slot>, i: nat, k: nat) {
    && BlocksOk(sb, blk) && InodesOk(sb, inodes)
    && (forall s :: IsSlot(inodes, s) && SlotAddr(blk, inodes, s) != 0 && !Skipped(s, i, k) ==>
          SlotAddr(blk, inodes, s) in owner && owner[SlotAddr(blk, inodes, s)] == s)
    && (forall a :: a in owner ==>
          sb.Nmeta() <= a < sb.size && IsSlot(inodes, owner[a]) && SlotAddr(blk, inodes, owner[a]) == a && !Skipped(owner[a], i, k))
    && (forall b :: 0 <= b < sb.size ==> UsedOk(sb, blk, owner, b))
  }

  ghost predicate UsedOk(sb: Superblock, blk: seq<Block>, owner: map<nat, Slot>, b: nat)
    requires BlocksOk(sb, blk) && b < sb.size
  {
    InBitmap(sb, b);
    Used(sb, blk, b) <==> b < sb.Nmeta() || b in owner
  }

  ghost predicate Owned(sb: Superblock, blk: seq<Block>, inodes: seq<Inode>, owner: map<nat, Slot>) {
    OwnedBut(sb, blk, inodes, owner, 0, 0)
  }

  /** No block is referred to twice. */
  lemma NoSharing(sb: Superblock, blk: seq<Block>, inodes: seq<Inode>, owner: map<nat, Slot>, s: Slot, t: Slot)
    requires Owned(sb, blk, inodes, owner) && IsSlot(inodes, s) && IsSlot(inodes, t)
    requires SlotAddr(blk, inodes, s) == SlotAddr(blk, inodes, t) != 0
    ensures s == t
  {
    assert !Skipped(s, 0, 0) && !Skipped(t, 0, 0);
  }

  /** The marked blocks are exactly the metadata and the blocks that some slot refers to. */
  lemma UsedIffReachable(sb: Superblock, blk: seq<Block>, inodes: seq<Inode>, owner: map<nat, Slot>, b: nat)
    requires Owned(sb, blk, inodes, owner) && b < sb.size
    ensures BBlock(sb, b) < |blk|
    ensures Used(sb, blk, b) <==> b < sb.Nmeta() || exists s :: IsSlot(inodes, s) && SlotAddr(blk, inodes, s) == b
  {
    InBitmap(sb, b);
    assert UsedOk(sb, blk, owner, b);
    if s :| IsSlot(inodes, s) && SlotAddr(blk, inodes, s) == b && b != 0 {
      assert !Skipped(s, 0, 0);
    }
  }

  /** Slots read the same addresses when the indirect blocks they go through are the same. */
  lemma SlotFrame(blk: seq<Block>, blk': seq<Block>, inodes: seq<Inode>, s: Slot)
    requires IsSlot(inodes, s) && |blk'| == |blk|
    requires var ind := inodes[s.inum].addrs[NDIRECT]; 0 < ind < |blk| ==> blk'[ind] == blk[ind]
    ensures SlotAddr(blk', inodes, s) == SlotAddr(blk, inodes, s)
  {
  }

  /** Giving the free block `a` to slot `s`. */
  lemma OwnMore(sb: Superblock, blk: seq<Block>, inodes: seq<Inode>, owner: map<nat, Slot>,
                blk': seq<Block>, inodes': seq<Inode>, owner': map<nat, Slot>, a: nat, s: Slot)
    requires owner' == owner[a := s]
    requires Owned(sb, blk, inodes, owner) && BlocksOk(sb, blk') && InodesOk(sb, inodes')
    requires sb.Nmeta() <= a < sb.size && a !in owner
    requires IsSlot(inodes, s) && SlotAddr(blk, inodes, s) == 0
    requires IsSlot(inodes', s) && SlotAddr(blk', inodes', s) == a
    requires forall t :: IsSlot(inodes, t) && IsSlot(inodes', t) && t != s ==> SlotAddr(blk', inodes', t) == SlotAddr(blk, inodes, t)
    requires forall b :: 0 <= b < sb.size ==> UsedOk(sb, blk', owner', b)
    ensures Owned(sb, blk', inodes', owner')
  {
    forall t | IsSlot(inodes', t) ensures IsSlot(inodes, t) {
    }
    forall t | IsSlot(inodes, t) ensures IsSlot(inodes', t) {
    }
    assert forall t :: !Skipped(t, 0, 0);
  }

  /** Every block below `n` is marked. */
  ghost predicate AllUsed(sb: Superblock, blk: seq<Block>, n: int)
    requires BlocksOk(sb, blk) && n <= sb.size
  {
    forall c :: 0 <= c < n ==> IsUsed(sb, blk, c)
  }

  ghost predicate IsUsed(sb: Superblock, blk: seq<Block>, b: nat)
    requires BlocksOk(sb, blk) && b < sb.size
  {
    InBitmap(sb, b);
    Used(sb, blk, b)
  }

  /** The store after balloc has taken block `a`: its bit is set, its content zeroed. */
  function Taken(sb: Superblock, blk: seq<Block>, a: nat): (r: seq<Block>)
    requires BlocksOk(sb, blk) && a < sb.size
    ensures BlocksOk(sb, r)
  {
    Mark(sb, blk, a, true)[a := Zeros(BSIZE)]
  }

  /** Above the metadata, balloc changes only the block it takes. */
  lemma TakenFrame(sb: Superblock, blk: seq<Block>, a: nat, b: nat)
    requires BlocksOk(sb, blk) && sb.Nmeta() <= a < sb.size && sb.Nmeta() <= b < sb.size
    ensures Taken(sb, blk, a)[b] == if b == a then Zeros(BSIZE) else blk[b]
  {
    InBitmap(sb, a);
  }

  lemma TakenUsed(sb: Superblock, blk: seq<Block>, owner: map<nat, Slot>, a: nat, owner': map<nat, Slot>, b: nat)
    requires BlocksOk(sb, blk) && sb.Nmeta() <= a < sb.size && b < sb.size
    requires UsedOk(sb, blk, owner, b) && a in owner' && forall c :: c != a ==> (c in owner' <==> c in owner)
    ensures UsedOk(sb, Taken(sb, blk, a), owner', b)
  {
    InBitmap(sb, a);
    InBitmap(sb, b);
    MarkAt(sb, blk, a, true, b);
    SameBitmap(sb, Mark(sb, blk, a, true), Taken(sb, blk, a), b);
  }

  /** The bit of `b` depends only on the metadata blocks. */
  lemma SameBitmap(sb: Superblock, blk: seq<Block>, blk': seq<Block>, b: nat)
    requires BlocksOk(sb, blk) && BlocksOk(sb, blk') && b < sb.size
    requires forall m :: 0 <= m < sb.Nmeta() ==> blk'[m] == blk[m]
    ensures BBlock(sb, b) < sb.size && (Used(sb, blk', b) <==> Used(sb, blk, b))
  {
    InBitmap(sb, b);
  }

  /** bmap fills a direct slot. */
  lemma GiveDirect(sb: Superblock, blk: seq<Block>, inodes: seq<Inode>, owner: map<nat, Slot>, i: nat, bn: nat, a: nat,
                   inodes': seq<Inode>)
    requires Owned(sb, blk, inodes, owner) && i < |inodes| && bn < NDIRECT && inodes[i].addrs[bn] == 0
    requires sb.Nmeta() <= a < sb.size && a !in owner
    requires inodes' == inodes[i := inodes[i].(addrs := inodes[i].addrs[bn := a])]
    ensures Owned(sb, Taken(sb, blk, a), inodes', owner[a := Data(i, bn)])
  {
    var s, blk', owner' := Data(i, bn), Taken(sb, blk, a), owner[a := Data(i, bn)];
    forall b | 0 <= b < sb.size ensures UsedOk(sb, blk', owner', b) {
      TakenUsed(sb, blk, owner, a, owner', b);
    }
    forall t | IsSlot(inodes, t) && IsSlot(inodes', t) && t != s
      ensures SlotAddr(blk', inodes', t) == SlotAddr(blk, inodes, t)
    {
      IndirectKept(sb, blk, inodes, owner, t.inum, a);
    }
    OwnMore(sb, blk, inodes, owner, blk', inodes', owner', a, s);
  }

  /** Taking a free block leaves every indirect block alone. */
  lemma IndirectKept(sb: Superblock, blk: seq<Block>, inodes: seq<Inode>, owner: map<nat, Slot>, i: nat, a: nat)
    requires Owned(sb, blk, inodes, owner) && i < |inodes| && sb.Nmeta() <= a < sb.size && a !in owner
    ensures var ind := inodes[i].addrs[NDIRECT];
      ind != 0 ==> sb.Nmeta() <= ind < sb.size && ind != a && Taken(sb, blk, a)[ind] == blk[ind]
  {
    var s := Indirect(i);
    assert IsSlot(inodes, s) && !Skipped(s, 0, 0);
    var ind := SlotAddr(blk, inodes, s);
    if ind != 0 {
      TakenFrame(sb, blk, a, ind);
    }
  }

  /** bmap allocates an indirect block; its entries are all 0. */
  lemma GiveIndirect(sb: Superblock, blk: seq<Block>, inodes: seq<Inode>, owner: map<nat, Slot>, i: nat, a: nat,
                     inodes': seq<Inode>)
    requires Owned(sb, blk, inodes, owner) && i < |inodes| && inodes[i].addrs[NDIRECT] == 0
    requires sb.Nmeta() <= a < sb.size && a !in owner
    requires inodes' == inodes[i := inodes[i].(addrs := inodes[i].addrs[NDIRECT := a])]
    ensures Owned(sb, Taken(sb, blk, a), inodes', owner[a := Indirect(i)])
  {
    var s, blk', owner' := Indirect(i), Taken(sb, blk, a), owner[a := Indirect(i)];
    forall b | 0 <= b < sb.size ensures UsedOk(sb, blk', owner', b) {
      TakenUsed(sb, blk, owner, a, owner', b);
    }
    forall t | IsSlot(inodes, t) && IsSlot(inodes', t) && t != s
      ensures SlotAddr(blk', inodes', t) == SlotAddr(blk, inodes, t)
    {
      IndirectKept(sb, blk, inodes, owner, t.inum, a);
    }
    OwnMore(sb, blk, inodes, owner, blk', inodes', owner', a, s);
  }

  /** bmap fills an entry of the indirect block. */
  lemma GiveEntry(sb: Superblock, blk: seq<Block>, inodes: seq<Inode>, owner: map<nat, Slot>, i: nat, bn: nat, a: nat,
                  blk': seq<Block>)
    requires Owned(sb, blk, inodes, owner) && i < |inodes| && NDIRECT <= bn < MAXFILE
    requires inodes[i].addrs[NDIRECT] != 0 && Addr(blk, inodes[i], bn) == 0
    requires sb.Nmeta() <= a < sb.size && a !in owner
    requires var ind := inodes[i].addrs[NDIRECT];
      && ind < sb.size && BlocksOk(sb, blk')
      && blk' == Taken(sb, blk, a)[ind := Put32(blk[ind], 4 * (bn - NDIRECT), a)]
    ensures Owned(sb, blk', inodes, owner[a := Data(i, bn)])
  {
    var s, owner', ind := Data(i, bn), owner[a := Data(i, bn)], inodes[i].addrs[NDIRECT];
    IndirectKept(sb, blk, inodes, owner, i, a);
    forall b | 0 <= b < sb.size ensures UsedOk(sb, blk', owner', b) {
      TakenUsed(sb, blk, owner, a, owner', b);
      SameBitmap(sb, Taken(sb, blk, a), blk', b);
    }
    GetPut(blk[ind], 4 * (bn - NDIRECT), a);
    forall t | IsSlot(inodes, t) && t != s
      ensures SlotAddr(blk', inodes, t) == SlotAddr(blk, inodes, t)
    {
      IndirectKept(sb, blk, inodes, owner, t.inum, a);
      if t.Data? && t.bn >= NDIRECT {
        if t.inum == i {
          GetPutOther(blk[ind], 4 * (bn - NDIRECT), a, 4 * (t.bn - NDIRECT));
        } else if inodes[t.inum].addrs[NDIRECT] != 0 {
          IndirectDiffer(sb, blk, inodes, owner, i, t.inum);
        }
      }
    }
    OwnMore(sb, blk, inodes, owner, blk', inodes, owner', a, s);
  }

  lemma IndirectDiffer(sb: Superblock, blk: seq<Block>, inodes: seq<Inode>, owner: map<nat, Slot>, i: nat, j: nat)
    requires Owned(sb, blk, inodes, owner) && i < |inodes| && j < |inodes| && i != j
    requires inodes[i].addrs[NDIRECT] != 0
    ensures inodes[i].addrs[NDIRECT] != inodes[j].addrs[NDIRECT]
  {
    if inodes[i].addrs[NDIRECT] == inodes[j].addrs[NDIRECT] {
      NoSharing(sb, blk, inodes, owner, Indirect(i), Indirect(j));
    }
  }

  /** Data blocks, and all blocks of other inodes than `i`, have kept their content and their owner. */
  ghost predicate KeptBlocks(blk: seq<Block>, owner: map<nat, Slot>, blk': seq<Block>, owner': map<nat, Slot>, i: nat) {
    && |blk'| == |blk|
    && (forall a :: a in owner ==> a in owner' && owner'[a] == owner[a])
    && (forall a :: a in owner && a < |blk| && (owner[a].Data? || owner[a].inum != i) ==> blk'[a] == blk[a])
  }

  /** Inode `i` has changed at most in the addresses of file block `bn` and of its indirect block. */
  ghost predicate KeptInodes(blk: seq<Block>, inodes: seq<Inode>, blk': seq<Block>, inodes': seq<Inode>, i: nat, bn: nat)
    requires i < |inodes| && bn < MAXFILE
  {
    && |inodes'| == |inodes|
    && (forall j :: 0 <= j < |inodes| && j != i ==> inodes'[j] == inodes[j])
    && inodes'[i].(addrs := inodes[i].addrs) == inodes[i]
    && |inodes'[i].addrs| == |inodes[i].addrs| == NDIRECT + 1
    && (forall c :: 0 <= c < MAXFILE && c != bn ==> Addr(blk', inodes'[i], c) == Addr(blk, inodes[i], c))
    && (inodes[i].addrs[NDIRECT] != 0 || bn < NDIRECT ==> inodes'[i].addrs[NDIRECT] == inodes[i].addrs[NDIRECT])
    && (bn >= NDIRECT ==> inodes'[i].addrs[NDIRECT] != 0)
  }

  /** The indirect block of an inode, if it has one. */
  ghost function IndirectSet(ino: Inode): (r: set<nat>) {
    if |ino.addrs| == NDIRECT + 1 && ino.addrs[NDIRECT] != 0 then {ino.addrs[NDIRECT]} else {}
  }

  /** The bitmap blocks. */
  ghost function BitmapBlocks(sb: Superblock): (r: set<nat>) {
    set b: nat | b < sb.size :: BBlock(sb, b)
  }

  // ----- what bmap allocates and logs

  /** The bitmap blocks that mark the blocks of `s`. */
  ghost function BitmapOf(sb: Superblock, s: set<nat>): (r: set<nat>) {
    set a | a in s :: BBlock(sb, a)
  }

  /** The blocks that nobody uses. */
  ghost function FreeBlocks(sb: Superblock, blk: seq<Block>): (r: set<nat>)
    requires BlocksOk(sb, blk)
  {
    set b: nat | b < sb.size && !IsUsed(sb, blk, b)
  }

  /** How many blocks bmap allocates for file block `bn`. */
  function NeedAt(blk: seq<Block>, ino: Inode, bn: nat): (n: nat) {
    if |ino.addrs| != NDIRECT + 1 || bn >= MAXFILE then 0
    else if Addr(blk, ino, bn) != 0 then 0 else if bn >= NDIRECT && ino.addrs[NDIRECT] == 0 then 2 else 1
  }

  /** `need` blocks have been taken; their bitmap blocks and `more` have been logged. */
  ghost predicate Gains(sb: Superblock, owner: map<nat, Slot>, logged: set<nat>, owner': map<nat, Slot>, logged': set<nat>, need: nat, more: set<nat>) {
    && owner.Keys <= owner'.Keys && |owner'.Keys| == |owner.Keys| + need
    && logged' == logged + BitmapOf(sb, owner'.Keys - owner.Keys) + more
  }

  lemma GainsNothing(sb: Superblock, owner: map<nat, Slot>, logged: set<nat>)
    ensures Gains(sb, owner, logged, owner, logged, 0, {})
  {
    assert owner.Keys - owner.Keys == {};
  }

  lemma GainsOne(sb: Superblock, owner: map<nat, Slot>, logged: set<nat>, a: nat, s: Slot, more: set<nat>)
    requires a !in owner
    ensures Gains(sb, owner, logged, owner[a := s], logged + {BBlock(sb, a), a} + more, 1, {a} + more)
  {
    var owner' := owner[a := s];
    assert owner'.Keys == owner.Keys + {a} && owner'.Keys - owner.Keys == {a};
    assert BitmapOf(sb, {a}) == {BBlock(sb, a)};
  }

  lemma GainsPlain(sb: Superblock, owner: map<nat, Slot>, logged: set<nat>, a: nat, s: Slot)
    requires a !in owner
    ensures Gains(sb, owner, logged, owner[a := s], logged + {BBlock(sb, a), a}, 1, {a})
  {
    GainsOne(sb, owner, logged, a, s, {});
    assert {a} + {} == {a} && logged + {BBlock(sb, a), a} + {} == logged + {BBlock(sb, a), a};
  }

  lemma GainsTwice(sb: Superblock, owner: map<nat, Slot>, logged: set<nat>, owner1: map<nat, Slot>, logged1: set<nat>, n1: nat, m1: set<nat>,
                   owner2: map<nat, Slot>, logged2: set<nat>, n2: nat, m2: set<nat>)
    requires Gains(sb, owner, logged, owner1, logged1, n1, m1) && Gains(sb, owner1, logged1, owner2, logged2, n2, m2)
    ensures Gains(sb, owner, logged, owner2, logged2, n1 + n2, m1 + m2)
  {
    var x, y := owner1.Keys - owner.Keys, owner2.Keys - owner1.Keys;
    assert owner2.Keys - owner.Keys == x + y;
    assert BitmapOf(sb, x + y) == BitmapOf(sb, x) + BitmapOf(sb, y);
  }

  /** The free blocks are those that are neither metadata nor owned. */
  lemma FreeIs(sb: Superblock, blk: seq<Block>, inodes: seq<Inode>, owner: map<nat, Slot>, b: nat)
    requires Owned(sb, blk, inodes, owner)
    ensures b in FreeBlocks(sb, blk) <==> sb.Nmeta() <= b < sb.size && b !in owner
    ensures b in owner ==> sb.Nmeta() <= b < sb.size
  {
    if b < sb.size {
      assert UsedOk(sb, blk, owner, b);
    }
  }

  lemma FreeCount(sb: Superblock, blk: seq<Block>, inodes: seq<Inode>, owner: map<nat, Slot>)
    requires Owned(sb, blk, inodes, owner)
    ensures BlocksOk(sb, blk) && |FreeBlocks(sb, blk)| == sb.nblocks - |owner.Keys|
    ensures AllUsed(sb, blk, sb.size) ==> |owner.Keys| == sb.nblocks
  {
    hide OwnedBut, FreeBlocks;
    OwnedBlocks(sb, blk, inodes, owner);
    var free, all := FreeBlocks(sb, blk), Interval(sb.Nmeta(), sb.size);
    forall b: nat ensures (b in free <==> b in all && b !in owner) && (b in owner ==> b in all) {
      FreeIs(sb, blk, inodes, owner, b);
    }
    assert all == free + owner.Keys;
    DisjointSize(free, owner.Keys);
    if AllUsed(sb, blk, sb.size) {
      NoneFree(sb, blk);
    }
  }

  lemma NoneFree(sb: Superblock, blk: seq<Block>)
    requires BlocksOk(sb, blk) && AllUsed(sb, blk, sb.size)
    ensures FreeBlocks(sb, blk) == {}
  {
  }

  // ----- file contents

  const MAXBYTES := 71680     // MAXFILE * BSIZE

  /** Exactly the blocks of the first `limit` bytes are allocated, and the indirect block if they need it. */
  ghost predicate Allocated(blk: seq<Block>, ino: Inode, limit: nat)
    requires |ino.addrs| == NDIRECT + 1
  {
    && limit <= MAXBYTES
    && (forall bn :: 0 <= bn < MAXFILE ==> (Addr(blk, ino, bn) != 0 <==> bn * BSIZE < limit))
    && (ino.addrs[NDIRECT] != 0 <==> NDIRECT * BSIZE < limit)
  }

  /** The file blocks of the first `n` bytes. */
  function BlocksIn(n: nat): (r: nat) { (n + BSIZE - 1) / BSIZE }

  /** The blocks that a file of `n` bytes has, its indirect block included. */
  function AllocCount(n: nat): (r: nat) { BlocksIn(n) + if n > NDIRECT * BSIZE then 1 else 0 }

  /** The blocks that a file of `size` bytes needs to grow to `end`. */
  function BlocksNeeded(size: nat, end: nat): (r: nat) {
    if end <= size then 0 else AllocCount(end) - AllocCount(size)
  }

  /** Growing from `size` to `end` fills an entry of the indirect block. */
  predicate Touches(size: nat, end: nat) { BlocksIn(size) < BlocksIn(end) && end > NDIRECT * BSIZE }

  lemma NeededTwice(size: nat, o: nat, end: nat)
    requires o <= end
    ensures BlocksNeeded(size, end) == BlocksNeeded(size, o) + BlocksNeeded(Max(size, o), end)
    ensures Touches(size, end) <==> Touches(size, o) || Touches(Max(size, o), end)
  {
    assert BlocksIn(o) <= BlocksIn(end);
  }

  /** What bmap needs for one round of writei, from how far the file reaches. */
  lemma NeedIs(blk: seq<Block>, ino: Inode, limit: nat, o: nat, m: nat)
    requires |ino.addrs| == NDIRECT + 1 && Allocated(blk, ino, limit) && o <= limit
    requires 0 < m && o % BSIZE + m <= BSIZE && o + m <= MAXBYTES
    ensures o / BSIZE < MAXFILE && NeedAt(blk, ino, o / BSIZE) == BlocksNeeded(limit, o + m)
    ensures NeedAt(blk, ino, o / BSIZE) > 0 && o / BSIZE >= NDIRECT <==> Touches(limit, o + m)
  {
    hide Addr;
    var bn := o / BSIZE;
    assert o == bn * BSIZE + o % BSIZE;
    assert BlocksIn(o + m) == bn + 1;
    assert Addr(blk, ino, bn) != 0 <==> bn * BSIZE < limit;
    if bn * BSIZE < limit {
      assert BlocksIn(limit) >= bn + 1;
    } else {
      assert limit == bn * BSIZE && BlocksIn(limit) == bn;
    }
  }

  /** Byte `k` of the file, as its block map locates it. */
  function ByteAt(blk: seq<Block>, ino: Inode, k: nat): (x: Byte)
    requires |ino.addrs| == NDIRECT + 1 && k < MAXBYTES
  {
    var a := Addr(blk, ino, k / BSIZE);
    if a < |blk| && |blk[a]| == BSIZE then blk[a][k % BSIZE] else 0
  }

  ghost predicate FilesOk(blk: seq<Block>, inodes: seq<Inode>) {
    forall i :: 0 <= i < |inodes| ==> FileOk(blk, inodes[i])
  }

  ghost predicate FileOk(blk: seq<Block>, ino: Inode) {
    |ino.addrs| == NDIRECT + 1 && Allocated(blk, ino, ino.size)
  }

  /** The content of a file. */
  function Content(blk: seq<Block>, ino: Inode): (c: seq<Byte>)
    requires |ino.addrs| == NDIRECT + 1 && ino.size <= MAXBYTES
    ensures |c| == ino.size
  {
    seq(ino.size, k requires 0 <= k < ino.size => ByteAt(blk, ino, k))
  }

  function Max(a: nat, b: nat): (c: nat) { if a < b then b else a }

  /** Content `c` with `src` written at `off`. */
  function Patched(c: seq<Byte>, off: nat, src: seq<Byte>): (r: seq<Byte>)
    requires off <= |c|
    ensures |r| == Max(|c|, off + |src|)
  {
    c[..off] + src + if off + |src| < |c| then c[off + |src|..] else []
  }

  /** The blocks of all inodes but `i` have kept their owner and content. */
  ghost predicate KeptOthers(blk: seq<Block>, owner: map<nat, Slot>, blk': seq<Block>, owner': map<nat, Slot>, i: nat) {
    && |blk'| == |blk|
    && (forall a :: a in owner && owner[a].inum != i ==> a in owner' && owner'[a] == owner[a])
    && (forall a :: a in owner && a < |blk| && owner[a].inum != i ==> blk'[a] == blk[a])
  }

  lemma OthersKeepContent(sb: Superblock, blk: seq<Block>, inodes: seq<Inode>, owner: map<nat, Slot>,
                          blk': seq<Block>, owner': map<nat, Slot>, i: nat, j: nat, k: nat)
    requires Owned(sb, blk, inodes, owner) && KeptOthers(blk, owner, blk', owner', i)
    requires j < |inodes| && j != i && k < MAXBYTES
    ensures Addr(blk', inodes[j], k / BSIZE) == Addr(blk, inodes[j], k / BSIZE)
    ensures Addr(blk, inodes[j], k / BSIZE) != 0 ==> ByteAt(blk', inodes[j], k) == ByteAt(blk, inodes[j], k)
  {
    var bn := k / BSIZE;
    assert IsSlot(inodes, Indirect(j)) && IsSlot(inodes, Data(j, bn));
    if inodes[j].addrs[NDIRECT] != 0 {
      SlotInRange(sb, blk, inodes, owner, Indirect(j));
    }
    if Addr(blk, inodes[j], bn) != 0 {
      SlotInRange(sb, blk, inodes, owner, Data(j, bn));
    }
  }

  /** Overwriting a data block changes no address and no ownership. */
  lemma WriteData(sb: Superblock, blk: seq<Block>, inodes: seq<Inode>, owner: map<nat, Slot>, a: nat, x: Block)
    requires Owned(sb, blk, inodes, owner) && a in owner && owner[a].Data? && |x| == BSIZE
    ensures a < |blk| && Owned(sb, blk[a := x], inodes, owner)
    ensures forall s :: IsSlot(inodes, s) ==> SlotAddr(blk[a := x], inodes, s) == SlotAddr(blk, inodes, s)
  {
    var blk' := blk[a := x];
    forall s | IsSlot(inodes, s) ensures SlotAddr(blk', inodes, s) == SlotAddr(blk, inodes, s) {
      var t := Indirect(s.inum);
      assert IsSlot(inodes, t);
      if SlotAddr(blk, inodes, t) != 0 {
        SlotInRange(sb, blk, inodes, owner, t);
      }
      SlotFrame(blk, blk', inodes, s);
    }
    forall b | 0 <= b < sb.size ensures UsedOk(sb, blk', owner, b) {
      assert UsedOk(sb, blk, owner, b);
      SameBitmap(sb, blk, blk', b);
    }
  }

  /** What bmap does to the extent of the file. */
  lemma ExtentGrows(blk: seq<Block>, inodes: seq<Inode>, blk': seq<Block>, inodes': seq<Inode>, i: nat, bn: nat, limit: nat, o: nat)
    requires i < |inodes| && |inodes[i].addrs| == NDIRECT + 1 && Allocated(blk, inodes[i], limit)
    requires bn < MAXFILE && KeptInodes(blk, inodes, blk', inodes', i, bn) && Addr(blk', inodes'[i], bn) != 0
    requires bn * BSIZE < o <= bn * BSIZE + BSIZE && bn * BSIZE <= limit
    ensures Allocated(blk', inodes'[i], Max(limit, o))
  {
    forall c | 0 <= c < MAXFILE ensures Addr(blk', inodes'[i], c) != 0 <==> c * BSIZE < Max(limit, o) {
    }
  }

  /** Block content `x` with `bytes` written at offset `o`. */
  function Splat(x: Block, o: nat, bytes: seq<Byte>): (r: Block)
    requires o + |bytes| <= |x|
    ensures |r| == |x|
    ensures forall k :: 0 <= k < |x| ==> r[k] == if o <= k < o + |bytes| then bytes[k - o] else x[k]
  {
    x[..o] + bytes + x[o + |bytes|..]
  }

  /** The bytes of the file after one round of writei's loop. */
  lemma ChunkBytes(sb: Superblock, blk: seq<Block>, inodes: seq<Inode>, owner: map<nat, Slot>,
                   blk1: seq<Block>, inodes1: seq<Inode>, owner1: map<nat, Slot>,
                   i: nat, o: nat, bytes: seq<Byte>, limit: nat, a: nat, k: nat)
    requires Owned(sb, blk, inodes, owner) && Owned(sb, blk1, inodes1, owner1) && i < |inodes| == |inodes1|
    requires Allocated(blk, inodes[i], limit) && o <= limit && 0 < |bytes| && o % BSIZE + |bytes| <= BSIZE && o + |bytes| <= MAXBYTES
    requires KeptBlocks(blk, owner, blk1, owner1, i) && KeptInodes(blk, inodes, blk1, inodes1, i, o / BSIZE)
    requires a == Addr(blk1, inodes1[i], o / BSIZE) != 0
    requires Addr(blk, inodes[i], o / BSIZE) != 0 ==> blk1 == blk && inodes1 == inodes
    requires k < MAXBYTES && (k < limit || o <= k < o + |bytes|)
    ensures a < |blk1| && |blk1[a]| == BSIZE
    ensures ByteAt(blk1[a := Splat(blk1[a], o % BSIZE, bytes)], inodes1[i], k)
         == if o <= k < o + |bytes| then bytes[k - o] else ByteAt(blk, inodes[i], k)
  {
    hide OwnedBut, KeptBlocks, KeptInodes;
    var bn, c := o / BSIZE, k / BSIZE;
    OwnedBlocks(sb, blk1, inodes1, owner1);
    SlotInRange(sb, blk1, inodes1, owner1, Data(i, bn));
    var x := Splat(blk1[a], o % BSIZE, bytes);
    WriteData(sb, blk1, inodes1, owner1, a, x);
    var blk2 := blk1[a := x];
    assert Addr(blk2, inodes1[i], c) == Addr(blk1, inodes1[i], c) by {
      assert IsSlot(inodes1, Data(i, c));
      assert SlotAddr(blk2, inodes1, Data(i, c)) == SlotAddr(blk1, inodes1, Data(i, c));
    }
    if c == bn {
      SameBlock(k, o, |bytes|);
      if !(o <= k < o + |bytes|) {
        assert Addr(blk, inodes[i], bn) != 0;
      }
    } else {
      OtherBlockKept(sb, blk, inodes, owner, blk1, inodes1, owner1, i, bn, c);
      OtherBlock(k, o, |bytes|);
    }
  }

  lemma OwnedBlocks(sb: Superblock, blk: seq<Block>, inodes: seq<Inode>, owner: map<nat, Slot>)
    requires Owned(sb, blk, inodes, owner)
    ensures BlocksOk(sb, blk) && InodesOk(sb, inodes)
  {
  }

  /** Where the bytes of one block lie. */
  lemma SameBlock(k: nat, o: nat, n: nat)
    requires k / BSIZE == o / BSIZE && o % BSIZE + n <= BSIZE
    ensures o <= k < o + n <==> o % BSIZE <= k % BSIZE < o % BSIZE + n
    ensures k - o == k % BSIZE - o % BSIZE
  {
  }

  lemma OtherBlock(k: nat, o: nat, n: nat)
    requires k / BSIZE != o / BSIZE && o % BSIZE + n <= BSIZE
    ensures !(o <= k < o + n)
  {
  }

  lemma OtherBlockKept(sb: Superblock, blk: seq<Block>, inodes: seq<Inode>, owner: map<nat, Slot>,
                       blk1: seq<Block>, inodes1: seq<Inode>, owner1: map<nat, Slot>, i: nat, bn: nat, c: nat)
    requires Owned(sb, blk, inodes, owner) && Owned(sb, blk1, inodes1, owner1) && i < |inodes| == |inodes1|
    requires bn < MAXFILE && c < MAXFILE && c != bn && Addr(blk1, inodes1[i], bn) != 0
    requires KeptBlocks(blk, owner, blk1, owner1, i) && KeptInodes(blk, inodes, blk1, inodes1, i, bn)
    ensures Addr(blk1, inodes1[i], c) == Addr(blk, inodes[i], c)
    ensures var e := Addr(blk, inodes[i], c); e != 0 ==> e < |blk| && e < |blk1| && e != Addr(blk1, inodes1[i], bn) && blk1[e] == blk[e]
  {
    var e := Addr(blk, inodes[i], c);
    if e != 0 {
      SlotInRange(sb, blk, inodes, owner, Data(i, c));
      if e == Addr(blk1, inodes1[i], bn) {
        NoSharing(sb, blk1, inodes1, owner1, Data(i, c), Data(i, bn));
      }
    }
  }

  datatype ReadResult = Bytes(data: seq<Byte>) | ReadRefused | ReadDevice
  datatype WriteResult = Wrote(n: nat) | Refused | Device | OutOfBlocks

  /** The data blocks of file blocks `lo` up to `hi`. */
  ghost function DataSet(blk: seq<Block>, ino: Inode, lo: nat, hi: nat): (r: set<nat>)
    requires |ino.addrs| == NDIRECT + 1
  {
    set c: nat | lo <= c < hi && c < MAXFILE :: Addr(blk, ino, c)
  }

  /** The end of the file blocks that a write from `off` has touched at `o`. */
  function TouchedEnd(off: nat, o: nat): (r: nat) { if o == off then off / BSIZE else BlocksIn(o) }

  /** One more round of writei touches one more block, or the one it was in. */
  lemma DataSetNext(blk: seq<Block>, inodes: seq<Inode>, blk': seq<Block>, inodes': seq<Inode>, i: nat, off: nat, o: nat, m: nat, limit: nat)
    requires i < |inodes| == |inodes'| && |inodes[i].addrs| == |inodes'[i].addrs| == NDIRECT + 1
    requires off <= o <= limit && 0 < m && o % BSIZE + m <= BSIZE && o + m <= MAXBYTES && Allocated(blk, inodes[i], limit)
    requires o / BSIZE < MAXFILE && KeptInodes(blk, inodes, blk', inodes', i, o / BSIZE)
    requires Addr(blk, inodes[i], o / BSIZE) != 0 ==> Addr(blk', inodes'[i], o / BSIZE) == Addr(blk, inodes[i], o / BSIZE)
    ensures DataSet(blk', inodes'[i], off / BSIZE, TouchedEnd(off, o + m))
         == DataSet(blk, inodes[i], off / BSIZE, TouchedEnd(off, o)) + {Addr(blk', inodes'[i], o / BSIZE)}
  {
    hide Addr;
    var lo, hi, bn := off / BSIZE, TouchedEnd(off, o), o / BSIZE;
    assert TouchedEnd(off, o + m) == bn + 1;
    assert hi == bn || (hi == bn + 1 && bn * BSIZE < limit);
    assert forall c :: 0 <= c < MAXFILE && c < hi ==> Addr(blk', inodes'[i], c) == Addr(blk, inodes[i], c);
    var s, t := DataSet(blk, inodes[i], lo, hi), DataSet(blk', inodes'[i], lo, bn + 1);
    forall x | x in s ensures x in t {
      var c: nat :| lo <= c < hi && c < MAXFILE && Addr(blk, inodes[i], c) == x;
      assert Addr(blk', inodes'[i], c) == x;
    }
    forall x | x in t ensures x in s + {Addr(blk', inodes'[i], bn)} {
      var c: nat :| lo <= c < bn + 1 && c < MAXFILE && Addr(blk', inodes'[i], c) == x;
      assert c < bn ==> Addr(blk, inodes[i], c) == x;
    }
  }

  /** The indirect block, if growing from `size` to `o` fills an entry of it. */
  ghost function TouchedIndirect(ino: Inode, size: nat, o: nat): (r: set<nat>) {
    if Touches(size, o) then IndirectSet(ino) else {}
  }

  /** What writei has taken and logged when it has come from `off` to `o` in a file that had `size` bytes. */
  ghost predicate LoggedBy(sb: Superblock, owner: map<nat, Slot>, logged: set<nat>, owner': map<nat, Slot>, logged': set<nat>,
                           blk: seq<Block>, ino: Inode, size: nat, off: nat, o: nat)
    requires |ino.addrs| == NDIRECT + 1
  {
    Gains(sb, owner, logged, owner', logged', BlocksNeeded(size, o),
          DataSet(blk, ino, off / BSIZE, TouchedEnd(off, o)) + TouchedIndirect(ino, size, o))
  }

  lemma LoggedStart(sb: Superblock, owner: map<nat, Slot>, logged: set<nat>, blk: seq<Block>, ino: Inode, size: nat, off: nat)
    requires |ino.addrs| == NDIRECT + 1 && off <= size
    ensures LoggedBy(sb, owner, logged, owner, logged, blk, ino, size, off, off)
  {
    GainsNothing(sb, owner, logged);
    assert DataSet(blk, ino, off / BSIZE, off / BSIZE) == {};
    assert BlocksIn(off) <= BlocksIn(size);
  }

  lemma LoggedStep(sb: Superblock, owner: map<nat, Slot>, logged: set<nat>, owner1: map<nat, Slot>, logged1: set<nat>,
                   owner2: map<nat, Slot>, logged2: set<nat>, blk: seq<Block>, inodes: seq<Inode>, blk': seq<Block>, inodes': seq<Inode>,
                   i: nat, size: nat, off: nat, o: nat, m: nat)
    requires i < |inodes| == |inodes'| && |inodes[i].addrs| == |inodes'[i].addrs| == NDIRECT + 1
    requires off <= size && off <= o && 0 < m && o % BSIZE + m <= BSIZE && o + m <= MAXBYTES
    requires LoggedBy(sb, owner, logged, owner1, logged1, blk, inodes[i], size, off, o) && Allocated(blk, inodes[i], Max(size, o))
    requires o / BSIZE < MAXFILE && KeptInodes(blk, inodes, blk', inodes', i, o / BSIZE)
    requires Addr(blk, inodes[i], o / BSIZE) != 0 ==> Addr(blk', inodes'[i], o / BSIZE) == Addr(blk, inodes[i], o / BSIZE)
    requires Gains(sb, owner1, logged1, owner2, logged2, BlocksNeeded(Max(size, o), o + m),
                   {Addr(blk', inodes'[i], o / BSIZE)} + TouchedIndirect(inodes'[i], Max(size, o), o + m))
    ensures LoggedBy(sb, owner, logged, owner2, logged2, blk', inodes'[i], size, off, o + m)
  {
    hide Addr, DataSet, Gains, BlocksNeeded, Allocated, KeptInodes, TouchedIndirect, Touches;
    var d, a := DataSet(blk, inodes[i], off / BSIZE, TouchedEnd(off, o)), Addr(blk', inodes'[i], o / BSIZE);
    var n1, n2 := TouchedIndirect(inodes'[i], size, o), TouchedIndirect(inodes'[i], Max(size, o), o + m);
    NeededTwice(size, o, o + m);
    SameIndirect(blk, inodes, blk', inodes', i, o / BSIZE, size, o);
    GainsTwice(sb, owner, logged, owner1, logged1, BlocksNeeded(size, o), d + n1,
               owner2, logged2, BlocksNeeded(Max(size, o), o + m), {a} + n2);
    DataSetNext(blk, inodes, blk', inodes', i, off, o, m, Max(size, o));
    TouchedTwice(inodes'[i], size, o, o + m);
    assert (d + n1) + ({a} + n2) == (d + {a}) + (n1 + n2);
  }

  lemma TouchedTwice(ino: Inode, size: nat, o: nat, end: nat)
    requires o <= end
    ensures TouchedIndirect(ino, size, o) + TouchedIndirect(ino, Max(size, o), end) == TouchedIndirect(ino, size, end)
  {
    hide IndirectSet;
    NeededTwice(size, o, end);
  }

  /** Once an entry has been filled there is an indirect block, and bmap keeps it. */
  lemma SameIndirect(blk: seq<Block>, inodes: seq<Inode>, blk': seq<Block>, inodes': seq<Inode>, i: nat, bn: nat, size: nat, o: nat)
    requires i < |inodes| == |inodes'| && |inodes[i].addrs| == |inodes'[i].addrs| == NDIRECT + 1 && bn < MAXFILE
    requires KeptInodes(blk, inodes, blk', inodes', i, bn) && Allocated(blk, inodes[i], Max(size, o))
    ensures TouchedIndirect(inodes[i], size, o) == TouchedIndirect(inodes'[i], size, o)
  {
    hide Addr;
  }

  lemma LoggedSize(sb: Superblock, owner: map<nat, Slot>, logged: set<nat>, owner': map<nat, Slot>, logged': set<nat>,
                   blk: seq<Block>, ino: Inode, size: nat, off: nat, o: nat)
    requires |ino.addrs| == NDIRECT + 1 && LoggedBy(sb, owner, logged, owner', logged', blk, ino, size, off, o)
    ensures |owner'.Keys| == |owner.Keys| + BlocksNeeded(size, o)
  {
    hide DataSet, BlocksNeeded, BitmapOf;
  }

  /** What a whole writei takes and logs: the inode block too, if the file grows. */
  ghost predicate WriteLogged(sb: Superblock, owner: map<nat, Slot>, logged: set<nat>, owner': map<nat, Slot>, logged': set<nat>,
                              blk: seq<Block>, ino: Inode, i: nat, size: nat, off: nat, end: nat)
    requires |ino.addrs| == NDIRECT + 1
  {
    Gains(sb, owner, logged, owner', logged', BlocksNeeded(size, end),
          DataSet(blk, ino, off / BSIZE, TouchedEnd(off, end)) + TouchedIndirect(ino, size, end)
          + if end > size then {IBlock(sb, i)} else {})
  }

  lemma LoggedAll(sb: Superblock, owner: map<nat, Slot>, logged: set<nat>, owner': map<nat, Slot>, logged': set<nat>,
                  blk: seq<Block>, ino: Inode, ino': Inode, i: nat, size: nat, off: nat, end: nat)
    requires |ino.addrs| == NDIRECT + 1 && ino' == ino.(size := ino'.size)
    requires LoggedBy(sb, owner, logged, owner', logged', blk, ino, size, off, end)
    requires DataSet(blk, ino', off / BSIZE, TouchedEnd(off, end)) == DataSet(blk, ino, off / BSIZE, TouchedEnd(off, end))
    ensures WriteLogged(sb, owner, logged, owner', if end > size then logged' + {IBlock(sb, i)} else logged', blk, ino', i, size, off, end)
  {
    hide DataSet, BitmapOf, BlocksNeeded, Touches;
    var more := DataSet(blk, ino, off / BSIZE, TouchedEnd(off, end)) + TouchedIndirect(ino, size, end);
    assert more + {} == more;
  }

  /** The relation between the start of writei's loop and a later round, at offset `o`. */
  ghost predicate Written(blk: seq<Block>, inodes: seq<Inode>, blk': seq<Block>, inodes': seq<Inode>,
                          i: nat, off: nat, src: seq<Byte>, o: nat)
    requires i < |inodes| && |inodes[i].addrs| == NDIRECT + 1
  {
    && |inodes'| == |inodes| && off <= o <= off + |src| && o <= MAXBYTES
    && (forall j :: 0 <= j < |inodes| && j != i ==> inodes'[j] == inodes[j])
    && |inodes'[i].addrs| == NDIRECT + 1 && inodes'[i].(addrs := inodes[i].addrs) == inodes[i]
    && Allocated(blk', inodes'[i], Max(inodes[i].size, o))
    && (o <= inodes[i].size ==> inodes' == inodes)
    && (forall k :: 0 <= k < Max(inodes[i].size, o) ==>
          ByteAt(blk', inodes'[i], k) == if off <= k < o then src[k - off] else ByteAt(blk, inodes[i], k))
  }

  lemma WrittenStep(blk: seq<Block>, inodes: seq<Inode>, blk1: seq<Block>, inodes1: seq<Inode>, blk2: seq<Block>, inodes2: seq<Inode>,
                    i: nat, off: nat, src: seq<Byte>, o: nat, m: nat)
    requires i < |inodes| && |inodes[i].addrs| == NDIRECT + 1 && off <= inodes[i].size
    requires Written(blk, inodes, blk1, inodes1, i, off, src, o)
    requires 0 < m && o + m <= off + |src| && o + m <= MAXBYTES
    requires |inodes2| == |inodes1| && KeptInodes(blk1, inodes1, blk2, inodes2, i, o / BSIZE)
    requires Allocated(blk2, inodes2[i], Max(Max(inodes[i].size, o), o + m))
    requires Addr(blk1, inodes1[i], o / BSIZE) != 0 ==> inodes2 == inodes1
    requires forall k :: 0 <= k < Max(Max(inodes[i].size, o), o + m) ==>
      ByteAt(blk2, inodes2[i], k) == if o <= k < o + m then src[o - off..o - off + m][k - o] else ByteAt(blk1, inodes1[i], k)
    ensures Written(blk, inodes, blk2, inodes2, i, off, src, o + m)
  {
    assert Max(Max(inodes[i].size, o), o + m) == Max(inodes[i].size, o + m);
    if o + m <= inodes[i].size {
      assert o / BSIZE * BSIZE <= o < inodes[i].size;
      assert Addr(blk1, inodes1[i], o / BSIZE) != 0;
    }
  }

  /** The end of writei: the bytes are in place, the size covers them. */
  lemma WrittenContent(blk: seq<Block>, inodes: seq<Inode>, blk': seq<Block>, inodes': seq<Inode>, i: nat, off: nat, src: seq<Byte>, ino: Inode)
    requires i < |inodes| && FileOk(blk, inodes[i]) && off <= inodes[i].size
    requires Written(blk, inodes, blk', inodes', i, off, src, off + |src|)
    requires ino == inodes'[i].(size := Max(inodes[i].size, off + |src|))
    ensures FileOk(blk', ino) && Content(blk', ino) == Patched(Content(blk, inodes[i]), off, src)
  {
    var c, d := Content(blk', ino), Patched(Content(blk, inodes[i]), off, src);
    forall bn | 0 <= bn < MAXFILE ensures Addr(blk', ino, bn) == Addr(blk', inodes'[i], bn) {
    }
    forall k | 0 <= k < |c| ensures c[k] == d[k] {
      assert ByteAt(blk', ino, k) == ByteAt(blk', inodes'[i], k);
    }
  }

  lemma KeptOthersTrans(blk: seq<Block>, owner: map<nat, Slot>, blk1: seq<Block>, owner1: map<nat, Slot>, blk2: seq<Block>, owner2: map<nat, Slot>, i: nat)
    requires KeptOthers(blk, owner, blk1, owner1, i) && KeptOthers(blk1, owner1, blk2, owner2, i)
    ensures KeptOthers(blk, owner, blk2, owner2, i)
  {
  }

  /** The other files after a write to inode `i`. */
  lemma OtherFiles(sb: Superblock, blk: seq<Block>, inodes: seq<Inode>, owner: map<nat, Slot>, blk': seq<Block>, owner': map<nat, Slot>, i: nat, j: nat)
    requires Owned(sb, blk, inodes, owner) && KeptOthers(blk, owner, blk', owner', i)
    requires j < |inodes| && j != i && FileOk(blk, inodes[j])
    ensures FileOk(blk', inodes[j]) && Content(blk', inodes[j]) == Content(blk, inodes[j])
  {
    var ino := inodes[j];
    forall bn | 0 <= bn < MAXFILE ensures Addr(blk', ino, bn) == Addr(blk, ino, bn) {
      OthersKeepContent(sb, blk, inodes, owner, blk', owner', i, j, bn * BSIZE);
    }
    forall k | 0 <= k < ino.size ensures ByteAt(blk', ino, k) == ByteAt(blk, ino, k) {
      OthersKeepContent(sb, blk, inodes, owner, blk', owner', i, j, k);
      assert k / BSIZE * BSIZE <= k;
    }
  }

  // ----- freeing

  lemma ClearedUsed(sb: Superblock, blk: seq<Block>, owner: map<nat, Slot>, a: nat, b: nat)
    requires BlocksOk(sb, blk) && sb.Nmeta() <= a < sb.size && b < sb.size && a in owner
    requires UsedOk(sb, blk, owner, b)
    ensures UsedOk(sb, Mark(sb, blk, a, false), owner - {a}, b)
  {
    InBitmap(sb, b);
    MarkAt(sb, blk, a, false, b);
  }

  lemma ClearedFrame(sb: Superblock, blk: seq<Block>, a: nat, b: nat)
    requires BlocksOk(sb, blk) && a < sb.size && sb.Nmeta() <= b < sb.size
    ensures Mark(sb, blk, a, false)[b] == blk[b]
  {
    InBitmap(sb, a);
  }

  /** Block `a` leaves the hands of its slot: the slot is cleared, or is exempt from now on. */
  lemma OwnLess(sb: Superblock, blk: seq<Block>, inodes: seq<Inode>, owner: map<nat, Slot>, i: nat, k: nat,
                inodes': seq<Inode>, a: nat, k': nat)
    requires OwnedBut(sb, blk, inodes, owner, i, k) && InodesOk(sb, inodes') && a in owner && k <= k'
    requires forall s :: IsSlot(inodes, s) && IsSlot(inodes', s) && s != owner[a] ==>
      SlotAddr(blk, inodes', s) == SlotAddr(blk, inodes, s)
    requires IsSlot(inodes', owner[a]) && (SlotAddr(blk, inodes', owner[a]) == 0 || Skipped(owner[a], i, k'))
    requires forall s :: IsSlot(inodes, s) && SlotAddr(blk, inodes, s) != 0 && Skipped(s, i, k') && !Skipped(s, i, k) ==> s == owner[a]
    ensures OwnedBut(sb, Mark(sb, blk, a, false), inodes', owner - {a}, i, k')
  {
    var blk', owner' := Mark(sb, blk, a, false), owner - {a};
    forall b | 0 <= b < sb.size ensures UsedOk(sb, blk', owner', b) {
      ClearedUsed(sb, blk, owner, a, b);
    }
    forall s | IsSlot(inodes', s) ensures IsSlot(inodes, s) {
    }
    forall s | IsSlot(inodes, s) ensures IsSlot(inodes', s) {
    }
    forall s | IsSlot(inodes', s) ensures SlotAddr(blk', inodes', s) == SlotAddr(blk, inodes', s) {
      var t := Indirect(s.inum);
      assert IsSlot(inodes, t) && IsSlot(inodes', t) && !Skipped(t, i, k) && !Skipped(t, i, k');
      assert t != owner[a] ==> SlotAddr(blk, inodes', t) == SlotAddr(blk, inodes, t);
      ClearedSlot(sb, blk, inodes', a, s);
    }
  }

  /** Clearing a bit changes no address. */
  lemma ClearedSlot(sb: Superblock, blk: seq<Block>, inodes: seq<Inode>, a: nat, s: Slot)
    requires BlocksOk(sb, blk) && sb.Nmeta() <= a < sb.size && IsSlot(inodes, s)
    requires var ind := inodes[s.inum].addrs[NDIRECT]; ind == 0 || sb.Nmeta() <= ind
    ensures SlotAddr(Mark(sb, blk, a, false), inodes, s) == SlotAddr(blk, inodes, s)
  {
    var ind := inodes[s.inum].addrs[NDIRECT];
    if 0 < ind < sb.size {
      ClearedFrame(sb, blk, a, ind);
    }
    SlotFrame(blk, Mark(sb, blk, a, false), inodes, s);
  }

  class FileSystem {
    const sb: Superblock
    var blk: seq<Block>
    var inodes: seq<Inode>
    var dinodes: seq<Inode>
    ghost var owner: map<nat, Slot>
    ghost var logged: set<nat>

    /** A file system of empty files: mkfs marks the metadata in the bitmap, and nothing else. */
    constructor (sb: Superblock)
      requires sb.Valid()
      ensures Quiet() && this.sb == sb && |inodes| == sb.ninodes && owner == map[] && logged == {}
      ensures forall i :: 0 <= i < |inodes| ==> inodes[i] == EmptyInode()
      ensures |FreeBlocks(sb, blk)| == sb.nblocks
    {
      this.sb := sb;
      inodes := seq(sb.ninodes, _ => EmptyInode());
      dinodes := seq(sb.ninodes, _ => EmptyInode());
      owner, logged := map[], {};
      var disk: seq<Block> := seq(sb.size, _ => Zeros(BSIZE));
      blk := disk;
      new;
      var b := 0;
      NothingMarked(sb, blk);
      while b < sb.Nmeta()
        invariant 0 <= b <= sb.Nmeta() && BlocksOk(sb, blk) && MarkedBelow(sb, blk, b)
        modifies this`blk
      {
        MarkNext(sb, blk, b);
        blk := Mark(sb, blk, b, true);
        b := b + 1;
      }
      EmptyOwned(sb, blk, inodes);
      FreeCount(sb, blk, inodes, owner);
    }

    /** balloc: the lowest free block, marked and zeroed.  None is the panic "out of blocks". */
    method Balloc() returns (r: Option<nat>)
      requires BlocksOk(sb, blk) && AllUsed(sb, blk, sb.Nmeta())
      modifies this`blk, this`logged
      ensures BlocksOk(sb, blk)
      ensures r.None? ==> AllUsed(sb, blk, sb.size) && blk == old(blk) && logged == old(logged)
      ensures r.Some? ==>
        && sb.Nmeta() <= r.value < sb.size && !IsUsed(sb, old(blk), r.value) && AllUsed(sb, old(blk), r.value)
        && blk == Taken(sb, old(blk), r.value)
        && logged == old(logged) + {BBlock(sb, r.value), r.value}
    {
      hide Bit, Mark;
      ghost var blk0 := blk;
      var b := 0;
      while b < sb.size
        invariant 0 <= b && b % BPB == 0 && blk == blk0 && logged == old(logged)
        invariant AllUsed(sb, blk, if b <= sb.size then b else sb.size)
      {
        InBitmap(sb, b);
        var m, bi := BBlock(sb, b), 0;
        while bi < BPB && b + bi < sb.size
          invariant 0 <= bi <= BPB && b + bi <= sb.size && blk == blk0 && logged == old(logged)
          invariant AllUsed(sb, blk, b + bi)
        {
          SplitIndex(b, bi);
          InBitmap(sb, b + bi);
          if !Bit(blk[m][bi / 8], bi % 8) {
            assert !IsUsed(sb, blk, b + bi);
            blk := Mark(sb, blk, b + bi, true);
            blk := blk[b + bi := Zeros(BSIZE)];
            logged := logged + {m, b + bi};
            return Some(b + bi);
          }
          bi := bi + 1;
        }
        b := b + BPB;
      }
      return None;
    }

    ghost predicate Valid()
      reads this
    {
      Owned(sb, blk, inodes, owner)
    }

    /**
      bmap: the address of file block `bn`, allocated if missing.  None is the panic of
      balloc.  The panic "out of range" is the case excluded by the second precondition.
      */
    method Bmap(i: nat, bn: nat) returns (r: Option<nat>)
      requires Valid() && i < |inodes|
      requires bn < MAXFILE
      modifies this`blk, this`inodes, this`owner, this`logged
      ensures r.None? ==> BlocksOk(sb, blk) && AllUsed(sb, blk, sb.size)
      ensures r.Some? ==>
        && Valid() && |inodes| == old(|inodes|)
        && r.value != 0 && r.value < |blk| && Addr(blk, inodes[i], bn) == r.value
        && KeptBlocks(old(blk), old(owner), blk, owner, i)
        && KeptInodes(old(blk), old(inodes), blk, inodes, i, bn)
        && Gains(sb, old(owner), old(logged), owner, logged, old(NeedAt(blk, inodes[i], bn)),
                 if old(NeedAt(blk, inodes[i], bn)) == 0 then {} else {r.value} + if bn >= NDIRECT then IndirectSet(inodes[i]) else {})
      ensures r.None? <==> sb.nblocks < |old(owner).Keys| + old(NeedAt(blk, inodes[i], bn))
      ensures old(Addr(blk, inodes[i], bn)) != 0 ==>
        r.Some? && blk == old(blk) && inodes == old(inodes) && owner == old(owner) && logged == old(logged)
    {
      hide Gains, OwnedBut, AllUsed, KeptBlocks, KeptInodes, FreeBlocks, BlocksOk;
      OwnedBlocks(sb, blk, inodes, owner);
      if bn < NDIRECT {
        r := BmapDirect(i, bn);
      } else {
        r := LoadIndirect(i);
        if r.Some? {
          ghost var blk1, inodes1, owner1, logged1 := blk, inodes, owner, logged;
          r := BmapEntry(i, bn);
          KeptTwice(old(blk), old(inodes), old(owner), blk1, inodes1, owner1, blk, inodes, owner, i, bn, r);
          BmapGains(sb, old(blk), old(inodes)[i], old(owner), old(logged), blk1, inodes[i], owner1, logged1, owner, logged, bn, r);
          if r.Some? {
            FreeCount(sb, blk, inodes, owner);
          }
        }
      }
    }

    method BmapDirect(i: nat, bn: nat) returns (r: Option<nat>)
      requires Valid() && i < |inodes| && bn < NDIRECT
      modifies this`blk, this`inodes, this`owner, this`logged
      ensures r.None? ==> BlocksOk(sb, blk) && AllUsed(sb, blk, sb.size)
      ensures r.Some? ==>
        && Valid() && |inodes| == old(|inodes|)
        && r.value != 0 && r.value < |blk| && Addr(blk, inodes[i], bn) == r.value
        && KeptBlocks(old(blk), old(owner), blk, owner, i)
        && KeptInodes(old(blk), old(inodes), blk, inodes, i, bn)
        && Gains(sb, old(owner), old(logged), owner, logged, old(NeedAt(blk, inodes[i], bn)),
                 if old(NeedAt(blk, inodes[i], bn)) == 0 then {} else {r.value})
      ensures r.None? <==> sb.nblocks < |old(owner).Keys| + old(NeedAt(blk, inodes[i], bn))
      ensures old(Addr(blk, inodes[i], bn)) != 0 ==>
        r.Some? && blk == old(blk) && inodes == old(inodes) && owner == old(owner) && logged == old(logged)
    {
      hide Gains, OwnedBut, AllUsed, IsUsed, FreeBlocks, Taken, KeptBlocks, KeptInodes;
      OwnedBlocks(sb, blk, inodes, owner);
      FreeCount(sb, blk, inodes, owner);
      GainsNothing(sb, owner, logged);
      var a := inodes[i].addrs[bn];
      if a != 0 {
        SlotInRange(sb, blk, inodes, owner, Data(i, bn));
        KeptNothing(blk, inodes, owner, i, bn);
        return Some(a);
      }
      MetaUsed(sb, blk, inodes, owner);
      ghost var blk0, inodes0 := blk, inodes;
      r := Balloc();
      if r.Some? {
        a := r.value;
        FreeIsUnowned(sb, blk0, inodes, owner, a);
        GainsPlain(sb, owner, old(logged), a, Data(i, bn));
        inodes := inodes[i := inodes[i].(addrs := inodes[i].addrs[bn := a])];
        GiveDirect(sb, blk0, inodes0, owner, i, bn, a, inodes);
        DirectKeeps(sb, blk0, inodes0, owner, i, bn, a, inodes);
        owner := owner[a := Data(i, bn)];
        FreeCount(sb, blk, inodes, owner);
      }
    }

    /** The part of bmap that makes sure that the inode has an indirect block. */
    method LoadIndirect(i: nat) returns (r: Option<nat>)
      requires Valid() && i < |inodes|
      modifies this`blk, this`inodes, this`owner, this`logged
      ensures r.None? ==> BlocksOk(sb, blk) && AllUsed(sb, blk, sb.size)
      ensures r.Some? ==>
        && Valid() && |inodes| == old(|inodes|)
        && r.value == inodes[i].addrs[NDIRECT] != 0
        && inodes == old(inodes)[i := old(inodes)[i].(addrs := old(inodes)[i].addrs[NDIRECT := r.value])]
        && (forall c :: 0 <= c < MAXFILE ==> Addr(blk, inodes[i], c) == Addr(old(blk), old(inodes)[i], c))
        && KeptBlocks(old(blk), old(owner), blk, owner, i)
        && Gains(sb, old(owner), old(logged), owner, logged, if old(inodes)[i].addrs[NDIRECT] == 0 then 1 else 0,
                 if old(inodes)[i].addrs[NDIRECT] == 0 then {r.value} else {})
      ensures r.None? <==> old(inodes)[i].addrs[NDIRECT] == 0 && sb.nblocks < |old(owner).Keys| + 1
      ensures old(inodes)[i].addrs[NDIRECT] != 0 ==>
        r.Some? && blk == old(blk) && inodes == old(inodes) && owner == old(owner) && logged == old(logged)
    {
      hide Gains, OwnedBut, AllUsed, IsUsed, FreeBlocks, Taken, KeptBlocks, KeptInodes, Addr;
      OwnedBlocks(sb, blk, inodes, owner);
      FreeCount(sb, blk, inodes, owner);
      GainsNothing(sb, owner, logged);
      var a := inodes[i].addrs[NDIRECT];
      if a != 0 {
        assert inodes[i].addrs[NDIRECT := a] == inodes[i].addrs;
        assert inodes[i := inodes[i].(addrs := inodes[i].addrs[NDIRECT := a])] == inodes;
        KeptNothing(blk, inodes, owner, i, 0);
        return Some(a);
      }
      MetaUsed(sb, blk, inodes, owner);
      ghost var blk0, inodes0 := blk, inodes;
      r := Balloc();
      if r.Some? {
        a := r.value;
        FreeIsUnowned(sb, blk0, inodes, owner, a);
        GainsPlain(sb, owner, old(logged), a, Indirect(i));
        inodes := inodes[i := inodes[i].(addrs := inodes[i].addrs[NDIRECT := a])];
        GiveIndirect(sb, blk0, inodes0, owner, i, a, inodes);
        TakenKeeps(sb, blk0, inodes0, owner, a, Indirect(i));
        FreshIndirect(sb, blk0, inodes0, owner, i, a);
        owner := owner[a := Indirect(i)];
        FreeCount(sb, blk, inodes, owner);
      }
    }

    /** The part of bmap that reads, and if necessary fills, an entry of the indirect block. */
    method BmapEntry(i: nat, bn: nat) returns (r: Option<nat>)
      requires Valid() && i < |inodes| && NDIRECT <= bn < MAXFILE && inodes[i].addrs[NDIRECT] != 0
      modifies this`blk, this`owner, this`logged
      ensures r.None? ==> BlocksOk(sb, blk) && AllUsed(sb, blk, sb.size)
      ensures r.Some? ==>
        && Valid()
        && r.value != 0 && r.value < |blk| && Addr(blk, inodes[i], bn) == r.value
        && (forall c :: 0 <= c < MAXFILE && c != bn ==> Addr(blk, inodes[i], c) == Addr(old(blk), inodes[i], c))
        && KeptBlocks(old(blk), old(owner), blk, owner, i)
        && Gains(sb, old(owner), old(logged), owner, logged, if old(Addr(blk, inodes[i], bn)) == 0 then 1 else 0,
                 if old(Addr(blk, inodes[i], bn)) == 0 then {r.value} + IndirectSet(inodes[i]) else {})
      ensures r.None? <==> old(Addr(blk, inodes[i], bn)) == 0 && sb.nblocks < |old(owner).Keys| + 1
      ensures old(Addr(blk, inodes[i], bn)) != 0 ==>
        r.Some? && blk == old(blk) && owner == old(owner) && logged == old(logged)
    {
      hide Gains, Put32, Get32, OwnedBut, AllUsed, IsUsed, FreeBlocks, Taken, KeptBlocks;
      OwnedBlocks(sb, blk, inodes, owner);
      FreeCount(sb, blk, inodes, owner);
      GainsNothing(sb, owner, logged);
      var ind := inodes[i].addrs[NDIRECT];
      SlotInRange(sb, blk, inodes, owner, Indirect(i));
      var a := Get32(blk[ind], 4 * (bn - NDIRECT));
      if a != 0 {
        SlotInRange(sb, blk, inodes, owner, Data(i, bn));
        KeptNothing(blk, inodes, owner, i, bn);
        return Some(a);
      }
      MetaUsed(sb, blk, inodes, owner);
      ghost var blk0 := blk;
      r := Balloc();
      if r.Some? {
        a := r.value;
        FreeIsUnowned(sb, blk0, inodes, owner, a);
        GainsOne(sb, owner, old(logged), a, Data(i, bn), {ind});
        IndirectKept(sb, blk0, inodes, owner, i, a);
        blk := blk[ind := Put32(blk[ind], 4 * (bn - NDIRECT), a)];
        logged := logged + {ind};
        GiveEntry(sb, blk0, inodes, owner, i, bn, a, blk);
        EntryKeeps(sb, blk0, inodes, owner, i, bn, a, blk);
        owner := owner[a := Data(i, bn)];
        FreeCount(sb, blk, inodes, owner);
      }
    }

    /** One round of writei's loop: `bytes` go to offset `o`, all within one block. */
    method WriteChunk(i: nat, bytes: seq<Byte>, o: nat, ghost limit: nat) returns (r: Option<nat>)
      requires Valid() && i < |inodes| && Allocated(blk, inodes[i], limit)
      requires o <= limit && 0 < |bytes| && o % BSIZE + |bytes| <= BSIZE && o + |bytes| <= MAXBYTES
      modifies this`blk, this`inodes, this`owner, this`logged
      ensures r.None? ==> BlocksOk(sb, blk) && AllUsed(sb, blk, sb.size)
      ensures r.Some? ==>
        && Valid() && |inodes| == old(|inodes|)
        && KeptOthers(old(blk), old(owner), blk, owner, i)
        && KeptInodes(old(blk), old(inodes), blk, inodes, i, o / BSIZE)
        && Allocated(blk, inodes[i], Max(limit, o + |bytes|))
        && (forall k :: 0 <= k < Max(limit, o + |bytes|) ==>
              ByteAt(blk, inodes[i], k) == if o <= k < o + |bytes| then bytes[k - o] else ByteAt(old(blk), old(inodes)[i], k))
        && Gains(sb, old(owner), old(logged), owner, logged, BlocksNeeded(limit, o + |bytes|),
                 {Addr(blk, inodes[i], o / BSIZE)} + TouchedIndirect(inodes[i], limit, o + |bytes|))
        && (old(Addr(blk, inodes[i], o / BSIZE)) != 0 ==>
              inodes == old(inodes) && Addr(blk, inodes[i], o / BSIZE) == old(Addr(blk, inodes[i], o / BSIZE)))
      ensures r.None? <==> sb.nblocks < |old(owner).Keys| + BlocksNeeded(limit, o + |bytes|)
    {
      hide OwnedBut, KeptInodes, KeptBlocks, KeptOthers, Splat, AllUsed, Gains, BlocksNeeded, Touches, NeedAt, Allocated, Addr, ByteAt, TouchedIndirect,
        IndirectSet, BitmapOf, DataSet;
      ghost var blk0, inodes0, owner0 := blk, inodes, owner;
      OwnedBlocks(sb, blk, inodes, owner);
      NeedIs(blk, inodes[i], limit, o, |bytes|);
      r := Bmap(i, o / BSIZE);
      if r.Some? {
        var a := r.value;
        ghost var blk1 := blk;
        OwnedBlocks(sb, blk, inodes, owner);
        SlotInRange(sb, blk, inodes, owner, Data(i, o / BSIZE));
        ExtentGrows(blk0, inodes0, blk, inodes, i, o / BSIZE, limit, o + |bytes|);
        WriteData(sb, blk, inodes, owner, a, Splat(blk[a], o % BSIZE, bytes));
        blk := blk[a := Splat(blk[a], o % BSIZE, bytes)];
        forall k | 0 <= k < Max(limit, o + |bytes|)
          ensures ByteAt(blk, inodes[i], k) == if o <= k < o + |bytes| then bytes[k - o] else ByteAt(blk0, inodes0[i], k)
        {
          ChunkBytes(sb, blk0, inodes0, owner0, blk1, inodes, owner, i, o, bytes, limit, a, k);
        }
        ChunkGains(sb, owner0, old(logged), owner, logged, blk0, inodes0[i], inodes[i], limit, o, |bytes|, a);
        logged := logged + {a};
        ChunkKeeps(blk0, inodes0, owner0, blk1, inodes, owner, blk, i, o / BSIZE, a, Max(limit, o + |bytes|));
      }
    }

    /** Between operations: the files are well-formed and the inode blocks agree with the in-memory inodes. */
    ghost predicate Quiet()
      reads this
    {
      Valid() && FilesOk(blk, inodes) && inodes == dinodes
    }

    /** iupdate. */
    method Iupdate(i: nat)
      requires i < |inodes| == |dinodes|
      modifies this`dinodes, this`logged
      ensures dinodes == old(dinodes)[i := inodes[i]] && logged == old(logged) + {IBlock(sb, i)}
    {
      dinodes := dinodes[i := inodes[i]];
      logged := logged + {IBlock(sb, i)};
    }

    /** One round of writei's loop, against the state at its start. */
    method WriteRound(i: nat, src: seq<Byte>, off: nat, o: nat, m: nat,
                      ghost blk0: seq<Block>, ghost inodes0: seq<Inode>, ghost owner0: map<nat, Slot>, ghost logged0: set<nat>) returns (ok: bool)
      requires Round(sb, blk0, inodes0, owner0, logged0, blk, inodes, owner, logged, i, off, src, o)
      requires off <= o && 0 < m && o % BSIZE + m <= BSIZE && o + m <= off + |src| && o + m <= MAXBYTES
      modifies this`blk, this`inodes, this`owner, this`logged
      ensures ok ==> Round(sb, blk0, inodes0, owner0, logged0, blk, inodes, owner, logged, i, off, src, o + m)
      ensures !ok ==> BlocksOk(sb, blk) && AllUsed(sb, blk, sb.size) && i < |inodes0| && sb.nblocks < |owner0.Keys| + BlocksNeeded(inodes0[i].size, o + m)
    {
      hide OwnedBut, Written, KeptOthers, DataSet, IndirectSet, AllUsed, ByteAt, Addr, KeptInodes, LoggedBy, Allocated, Gains, BlocksNeeded,
        Round, Touches, TouchedIndirect, BlocksOk;
      ghost var blk1, inodes1, owner1, logged1 := blk, inodes, owner, logged;
      RoundFacts(sb, blk0, inodes0, owner0, logged0, blk, inodes, owner, logged, i, off, src, o);
      NeededTwice(inodes0[i].size, o, o + m);
      var r := WriteChunk(i, src[o - off..o - off + m], o, Max(inodes0[i].size, o));
      if r.None? {
        return false;
      }
      OwnedBlocks(sb, blk, inodes, owner);
      RoundStep(sb, blk0, inodes0, owner0, logged0, blk1, inodes1, owner1, logged1, blk, inodes, owner, logged, i, off, src, o, m);
      return true;
    }

    /** The loop of writei. */
    method WriteLoop(i: nat, src: seq<Byte>, off: nat) returns (ok: bool)
      requires Valid() && i < |inodes| && FileOk(blk, inodes[i])
      requires off <= inodes[i].size && off + |src| <= MAXBYTES
      modifies this`blk, this`inodes, this`owner, this`logged
      ensures !ok ==> BlocksOk(sb, blk) && AllUsed(sb, blk, sb.size)
      ensures ok ==>
        && Valid() && Written(old(blk), old(inodes), blk, inodes, i, off, src, off + |src|)
        && KeptOthers(old(blk), old(owner), blk, owner, i)
        && |inodes[i].addrs| == NDIRECT + 1
        && LoggedBy(sb, old(owner), old(logged), owner, logged, blk, inodes[i], old(inodes)[i].size, off, off + |src|)
      ensures ok <==> |old(owner).Keys| + BlocksNeeded(old(inodes)[i].size, off + |src|) <= sb.nblocks
      ensures ok && src == [] ==> inodes == old(inodes)
    {
      hide OwnedBut, Written, KeptOthers, DataSet, IndirectSet, AllUsed, ByteAt, Addr, KeptInodes, LoggedBy, Allocated, Gains, BlocksNeeded, FreeBlocks, Round;
      ghost var blk0, inodes0, owner0 := blk, inodes, owner;
      RoundStart(sb, blk, inodes, owner, logged, i, off, src);
      var tot, o := 0, off;
      while tot < |src|
        invariant 0 <= tot <= |src| && o == off + tot
        invariant Round(sb, blk0, inodes0, owner0, old(logged), blk, inodes, owner, logged, i, off, src, o)
      {
        var m := if |src| - tot < BSIZE - o % BSIZE then |src| - tot else BSIZE - o % BSIZE;
        ok := WriteRound(i, src, off, o, m, blk0, inodes0, owner0, old(logged));
        if !ok {
          NeededTwice(inodes0[i].size, o + m, off + |src|);
          return;
        }
        tot := tot + m;
        o := o + m;
      }
      RoundFacts(sb, blk0, inodes0, owner0, old(logged), blk, inodes, owner, logged, i, off, src, o);
      FreeCount(sb, blk, inodes, owner);
      return true;
    }

    /**
      writei.  The file's content becomes its old content with `src` written at `off`, all
      other files keep theirs, and the inode block is up to date afterwards.  A refused call
      changes nothing.  OutOfBlocks is the panic of balloc.
      */
    method Writei(i: nat, src: seq<Byte>, off: nat) returns (r: WriteResult)
      requires Quiet() && i < |inodes| && off < WORD && |src| < WORD
      modifies this
      ensures r.Device? <==> old(inodes[i].typ) == T_DEV
      ensures r.Refused? <==> old(inodes[i].typ) != T_DEV && (off > old(inodes[i].size) || off + |src| > MAXBYTES)
      ensures r.Refused? || r.Device? ==>
        blk == old(blk) && inodes == old(inodes) && dinodes == old(dinodes) && owner == old(owner) && logged == old(logged)
      ensures r.OutOfBlocks? ==> BlocksOk(sb, blk) && AllUsed(sb, blk, sb.size)
      ensures r.OutOfBlocks? <==> !r.Device? && !r.Refused? && |FreeBlocks(sb, old(blk))| < BlocksNeeded(old(inodes[i].size), off + |src|)
      ensures r.Wrote? ==>
        && r.n == |src| && Quiet() && |inodes| == old(|inodes|)
        && Content(blk, inodes[i]) == Patched(old(Content(blk, inodes[i])), off, src)
        && inodes[i].(size := old(inodes[i].size), addrs := old(inodes[i].addrs)) == old(inodes[i])
        && (forall j :: 0 <= j < |inodes| && j != i ==>
              inodes[j] == old(inodes)[j] && Content(blk, inodes[j]) == Content(old(blk), old(inodes)[j]))
        && WriteLogged(sb, old(owner), old(logged), owner, logged, blk, inodes[i], i, old(inodes[i].size), off, off + |src|)
    {
      hide OwnedBut, Written, KeptOthers, DataSet, IndirectSet, AllUsed, ByteAt, Addr, Allocated, Content, Patched,
        LoggedBy, WriteLogged, BlocksNeeded, FreeBlocks;
      OwnedBlocks(sb, blk, inodes, owner);
      FreeCount(sb, blk, inodes, owner);
      assert FileOk(blk, inodes[i]);
      FileBound(blk, inodes[i]);
      if inodes[i].typ == T_DEV {
        return Device;
      }
      if off > inodes[i].size || (off + |src|) % WORD < off {
        return Refused;
      }
      if (off + |src|) % WORD > MAXBYTES {
        return Refused;
      }
      ghost var blk0, inodes0, owner0 := blk, inodes, owner;
      var ok := WriteLoop(i, src, off);
      if !ok {
        return OutOfBlocks;
      }
      WrittenInodes(blk0, inodes0, blk, inodes, i, off, src);
      WrittenContent(blk0, inodes0, blk, inodes, i, off, src, inodes[i].(size := Max(inodes0[i].size, off + |src|)));
      var end := off + |src|;
      LoggedAll(sb, owner0, old(logged), owner, logged, blk, inodes[i], inodes[i], i, inodes0[i].size, off, end);
      if |src| > 0 && end > inodes[i].size {
        LoggedResized(sb, owner0, old(logged), owner, logged, blk, inodes, i, inodes0[i].size, off, end);
        ResizeKeeps(sb, blk, inodes, owner, i, end);
        inodes := inodes[i := inodes[i].(size := end)];
        Iupdate(i);
      }
      AllFiles(sb, blk0, inodes0, owner0, blk, inodes, owner, i);
      return Wrote(|src|);
    }

    /** bfree.  The result is false for the panic "freeing free block". */
    method Bfree(b: nat) returns (ok: bool)
      requires BlocksOk(sb, blk) && b < sb.size
      modifies this`blk, this`logged
      ensures BlocksOk(sb, blk) && (ok <==> IsUsed(sb, old(blk), b))
      ensures ok ==> blk == Mark(sb, old(blk), b, false) && logged == old(logged) + {BBlock(sb, b)}
      ensures !ok ==> blk == old(blk) && logged == old(logged)
    {
      hide Bit, Mark;
      InBitmap(sb, b);
      ModEight(b);
      var bi := b % BPB;
      if !Bit(blk[BBlock(sb, b)][bi / 8], bi % 8) {
        return false;
      }
      blk := Mark(sb, blk, b, false);
      logged := logged + {BBlock(sb, b)};
      return true;
    }

    /** The first loop of itrunc. */
    method TruncDirect(i: nat)
      requires Valid() && i < |inodes|
      modifies this`blk, this`inodes, this`owner, this`logged
      ensures Valid() && |inodes| == old(|inodes|)
      ensures KeptOthers(old(blk), old(owner), blk, owner, i)
      ensures forall j :: 0 <= j < |inodes| && j != i ==> inodes[j] == old(inodes)[j]
      ensures |inodes[i].addrs| == NDIRECT + 1 && inodes[i].(addrs := old(inodes)[i].addrs) == old(inodes)[i]
      ensures inodes[i].addrs[NDIRECT] == old(inodes)[i].addrs[NDIRECT]
      ensures forall c :: 0 <= c < NDIRECT ==> inodes[i].addrs[c] == 0
      ensures forall a :: a in owner ==> a in old(owner) && owner[a] == old(owner)[a]
    {
      hide OwnedBut, Mark;
      OwnedBlocks(sb, blk, inodes, owner);
      var k := 0;
      while k < NDIRECT
        invariant 0 <= k <= NDIRECT && Valid() && BlocksOk(sb, blk) && InodesOk(sb, inodes) && |inodes| == old(|inodes|)
        invariant KeptOthers(old(blk), old(owner), blk, owner, i)
        invariant forall j :: 0 <= j < |inodes| && j != i ==> inodes[j] == old(inodes)[j]
        invariant |inodes[i].addrs| == NDIRECT + 1 && inodes[i].(addrs := old(inodes)[i].addrs) == old(inodes)[i]
        invariant inodes[i].addrs[NDIRECT] == old(inodes)[i].addrs[NDIRECT]
        invariant forall c :: 0 <= c < k ==> inodes[i].addrs[c] == 0
        invariant forall a :: a in owner ==> a in old(owner) && owner[a] == old(owner)[a]
      {
        var a := inodes[i].addrs[k];
        if a != 0 {
          ghost var blk0, inodes0 := blk, inodes;
          SlotInRange(sb, blk, inodes, owner, Data(i, k));
          OwnedIsUsed(sb, blk, inodes, owner, 0, 0, a);
          var free := Bfree(a);
          assert free;    // the panic is unreachable
          inodes := inodes[i := inodes[i].(addrs := inodes[i].addrs[k := 0])];
          DropDirect(sb, blk0, inodes0, owner, i, k, inodes);
          owner := owner - {a};
          OwnedBlocks(sb, blk, inodes, owner);
        }
        k := k + 1;
      }
    }

    /** The second part of itrunc: the entries of the indirect block, then the block itself. */
    method TruncIndirect(i: nat)
      requires Valid() && i < |inodes| && |inodes[i].addrs| == NDIRECT + 1 && inodes[i].addrs[NDIRECT] != 0
      modifies this`blk, this`inodes, this`owner, this`logged
      ensures Valid() && KeptOthers(old(blk), old(owner), blk, owner, i)
      ensures inodes == old(inodes)[i := old(inodes)[i].(addrs := old(inodes)[i].addrs[NDIRECT := 0])]
      ensures forall a :: a in owner ==> a in old(owner) && owner[a] == old(owner)[a]
    {
      hide OwnedBut, Mark, Get32;
      ghost var blk0, owner0 := blk, owner;
      OwnedBlocks(sb, blk, inodes, owner);
      SlotInRange(sb, blk, inodes, owner, Indirect(i));
      NothingSkipped(sb, blk, inodes, owner, i);
      var ind := inodes[i].addrs[NDIRECT];
      var j := 0;
      while j < NINDIRECT
        invariant 0 <= j <= NINDIRECT && OwnedBut(sb, blk, inodes, owner, i, j) && BlocksOk(sb, blk) && inodes == old(inodes)
        invariant KeptOthers(blk0, owner0, blk, owner, i)
        invariant forall a :: a in owner ==> a in owner0 && owner[a] == owner0[a]
      {
        var a := Get32(blk[ind], 4 * j);
        ghost var blk1 := blk;
        if a != 0 {
          EntryOwned(sb, blk, inodes, owner, i, j);
          OwnedIsUsed(sb, blk, inodes, owner, i, j, a);
          var free := Bfree(a);
          assert free;    // the panic is unreachable
          DropEntry(sb, blk1, inodes, owner, i, j);
          owner := owner - {a};
        } else {
          EmptyEntry(sb, blk, inodes, owner, i, j);
        }
        OwnedButBlocks(sb, blk, inodes, owner, i, j + 1);
        j := j + 1;
      }
      IndirectOwned(sb, blk, inodes, owner, i, NINDIRECT);
      OwnedIsUsed(sb, blk, inodes, owner, i, NINDIRECT, ind);
      ghost var blk2, inodes2 := blk, inodes;
      var free := Bfree(ind);
      assert free;    // the panic is unreachable
      inodes := inodes[i := inodes[i].(addrs := inodes[i].addrs[NDIRECT := 0])];
      DropIndirect(sb, blk2, inodes2, owner, i, inodes);
      owner := owner - {ind};
    }

    /**
      itrunc: exactly the inode's own blocks are freed, the inode block is updated, and every
      other file is as before.
      */
    method Itrunc(i: nat)
      requires Quiet() && i < |inodes|
      modifies this
      ensures Quiet() && |inodes| == old(|inodes|)
      ensures inodes[i] == old(inodes)[i].(size := 0, addrs := inodes[i].addrs)
      ensures forall c :: 0 <= c < MAXFILE ==> Addr(blk, inodes[i], c) == 0
      ensures owner.Keys == set a | a in old(owner) && old(owner)[a].inum != i
      ensures Freed(sb, old(blk), old(owner), blk, i)
      ensures forall j :: 0 <= j < |inodes| && j != i ==>
        inodes[j] == old(inodes)[j] && Content(blk, inodes[j]) == Content(old(blk), old(inodes)[j])
    {
      hide OwnedBut, KeptOthers, Content, Allocated;
      ghost var blk0, inodes0, owner0 := blk, inodes, owner;
      TruncDirect(i);
      if inodes[i].addrs[NDIRECT] != 0 {
        ghost var blk1, owner1 := blk, owner;
        TruncIndirect(i);
        KeptOthersTrans(blk0, owner0, blk1, owner1, blk, owner, i);
      }
      ResizeKeeps(sb, blk, inodes, owner, i, 0);
      inodes := inodes[i := inodes[i].(size := 0)];
      EmptyFile(blk, inodes[i]);
      AllFiles(sb, blk0, inodes0, owner0, blk, inodes, owner, i);
      Survivors(sb, blk, inodes, owner, owner0, blk0, i);
      FreedExactly(sb, blk0, inodes0, owner0, blk, inodes, owner, i);
      Iupdate(i);
    }

    /** The loop of readi: the blocks are all there, so bmap allocates nothing. */
    method ReadLoop(i: nat, off: nat, n: nat) returns (data: seq<Byte>)
      requires Valid() && i < |inodes| && FileOk(blk, inodes[i]) && off + n <= inodes[i].size
      modifies this`blk, this`inodes, this`owner, this`logged
      ensures blk == old(blk) && inodes == old(inodes) && owner == old(owner) && logged == old(logged)
      ensures |data| == n && forall k :: 0 <= k < n ==> data[k] == ByteAt(blk, inodes[i], off + k)
    {
      hide OwnedBut, KeptBlocks, KeptInodes;
      OwnedBlocks(sb, blk, inodes, owner);
      data := [];
      var o := off;
      while |data| < n
        invariant |data| <= n && o == off + |data|
        invariant blk == old(blk) && inodes == old(inodes) && owner == old(owner) && logged == old(logged)
        invariant forall k :: 0 <= k < |data| ==> data[k] == ByteAt(blk, inodes[i], off + k)
        decreases n - |data|
      {
        assert o / BSIZE * BSIZE <= o < MAXBYTES;
        var br := Bmap(i, o / BSIZE);
        assert br.Some?;
        var r := br.value;
        var m := if n - |data| < BSIZE - o % BSIZE then n - |data| else BSIZE - o % BSIZE;
        var part := blk[r][o % BSIZE..o % BSIZE + m];
        forall k | 0 <= k < m ensures part[k] == ByteAt(blk, inodes[i], o + k) {
          SameBlockIndex(o, k);
        }
        data := data + part;
        o := o + m;
      }
    }

    /** readi returns the part of the content that exists, and changes nothing. */
    method Readi(i: nat, off: nat, n: nat) returns (r: ReadResult)
      requires Quiet() && i < |inodes| && off < WORD && n < WORD
      modifies this`blk, this`inodes, this`owner, this`logged
      ensures blk == old(blk) && inodes == old(inodes) && owner == old(owner) && logged == old(logged)
      ensures r.ReadDevice? <==> inodes[i].typ == T_DEV
      ensures r.ReadRefused? <==> inodes[i].typ != T_DEV && (off > inodes[i].size || off + n >= WORD)
      ensures r.Bytes? ==>
        var c := Content(blk, inodes[i]);
        r.data == c[off..if off + n < |c| then off + n else |c|]
    {
      hide OwnedBut, Allocated, ByteAt;
      assert FileOk(blk, inodes[i]);
      FileBound(blk, inodes[i]);
      if inodes[i].typ == T_DEV {
        return ReadDevice;
      }
      if off > inodes[i].size || (off + n) % WORD < off {
        return ReadRefused;
      }
      var len := if off + n > inodes[i].size then inodes[i].size - off else n;
      var data := ReadLoop(i, off, len);
      assert data == Content(blk, inodes[i])[off..off + len];
      return Bytes(data);
    }
  }

  lemma SameBlockIndex(o: nat, k: nat)
    requires o % BSIZE + k < BSIZE
    ensures (o + k) / BSIZE == o / BSIZE && (o + k) % BSIZE == o % BSIZE + k
  {
  }

  /** Exactly the blocks of inode `i` have become free. */
  ghost predicate Freed(sb: Superblock, blk: seq<Block>, owner: map<nat, Slot>, blk': seq<Block>, i: nat)
    requires BlocksOk(sb, blk) && BlocksOk(sb, blk')
  {
    forall b :: 0 <= b < sb.size ==>
      (IsUsed(sb, blk', b) <==> IsUsed(sb, blk, b) && !(b in owner && owner[b].inum == i))
  }

  lemma FreedExactly(sb: Superblock, blk: seq<Block>, inodes: seq<Inode>, owner: map<nat, Slot>,
                     blk': seq<Block>, inodes': seq<Inode>, owner': map<nat, Slot>, i: nat)
    requires Owned(sb, blk, inodes, owner) && Owned(sb, blk', inodes', owner')
    requires owner'.Keys == set a | a in owner && owner[a].inum != i
    ensures BlocksOk(sb, blk) && BlocksOk(sb, blk') && Freed(sb, blk, owner, blk', i)
  {
    forall b | 0 <= b < sb.size
      ensures IsUsed(sb, blk', b) <==> IsUsed(sb, blk, b) && !(b in owner && owner[b].inum == i)
    {
      assert UsedOk(sb, blk, owner, b) && UsedOk(sb, blk', owner', b);
      assert b in owner'.Keys <==> b in owner && owner[b].inum != i;
    }
  }

  lemma EmptyFile(blk: seq<Block>, ino: Inode)
    requires |ino.addrs| == NDIRECT + 1 && ino.size == 0 && forall c :: 0 <= c <= NDIRECT ==> ino.addrs[c] == 0
    ensures FileOk(blk, ino) && forall c :: 0 <= c < MAXFILE ==> Addr(blk, ino, c) == 0
  {
  }

  /** Which blocks are still owned once inode `i` refers to none. */
  lemma Survivors(sb: Superblock, blk: seq<Block>, inodes: seq<Inode>, owner: map<nat, Slot>, owner0: map<nat, Slot>, blk0: seq<Block>, i: nat)
    requires Owned(sb, blk, inodes, owner) && i < |inodes| && |inodes[i].addrs| == NDIRECT + 1
    requires inodes[i].addrs[NDIRECT] == 0 && forall c :: 0 <= c < MAXFILE ==> Addr(blk, inodes[i], c) == 0
    requires KeptOthers(blk0, owner0, blk, owner, i) && forall a :: a in owner ==> a in owner0 && owner[a] == owner0[a]
    ensures owner.Keys == set a | a in owner0 && owner0[a].inum != i
  {
    forall a | a in owner ensures owner[a].inum != i {
      assert SlotAddr(blk, inodes, owner[a]) == a;
    }
  }

  lemma NothingSkipped(sb: Superblock, blk: seq<Block>, inodes: seq<Inode>, owner: map<nat, Slot>, i: nat)
    requires Owned(sb, blk, inodes, owner)
    ensures OwnedBut(sb, blk, inodes, owner, i, 0)
    ensures KeptOthers(blk, owner, blk, owner, i)
  {
    assert forall s :: !Skipped(s, i, 0) && !Skipped(s, 0, 0);
  }

  lemma OwnedButBlocks(sb: Superblock, blk: seq<Block>, inodes: seq<Inode>, owner: map<nat, Slot>, i: nat, k: nat)
    requires OwnedBut(sb, blk, inodes, owner, i, k)
    ensures BlocksOk(sb, blk) && InodesOk(sb, inodes)
  {
  }

  lemma IndirectOwned(sb: Superblock, blk: seq<Block>, inodes: seq<Inode>, owner: map<nat, Slot>, i: nat, k: nat)
    requires OwnedBut(sb, blk, inodes, owner, i, k) && i < |inodes| && |inodes[i].addrs| == NDIRECT + 1 && inodes[i].addrs[NDIRECT] != 0
    ensures var ind := inodes[i].addrs[NDIRECT]; ind in owner && owner[ind] == Indirect(i) && sb.Nmeta() <= ind < sb.size
  {
    var s := Indirect(i);
    assert IsSlot(inodes, s) && !Skipped(s, i, k);
    assert SlotAddr(blk, inodes, s) != 0;
  }

  lemma EntryOwned(sb: Superblock, blk: seq<Block>, inodes: seq<Inode>, owner: map<nat, Slot>, i: nat, j: nat)
    requires OwnedBut(sb, blk, inodes, owner, i, j) && i < |inodes| && j < NINDIRECT
    requires |inodes[i].addrs| == NDIRECT + 1 && Addr(blk, inodes[i], NDIRECT + j) != 0
    ensures var a := Addr(blk, inodes[i], NDIRECT + j);
      a in owner && owner[a] == Data(i, NDIRECT + j) && sb.Nmeta() <= a < sb.size
  {
    var s := Data(i, NDIRECT + j);
    assert IsSlot(inodes, s) && !Skipped(s, i, j);
    assert SlotAddr(blk, inodes, s) != 0;
  }

  /** itrunc frees the block of an indirect entry; the entry itself stays until its block goes. */
  lemma DropEntry(sb: Superblock, blk: seq<Block>, inodes: seq<Inode>, owner: map<nat, Slot>, i: nat, j: nat)
    requires OwnedBut(sb, blk, inodes, owner, i, j) && i < |inodes| && j < NINDIRECT
    requires |inodes[i].addrs| == NDIRECT + 1 && Addr(blk, inodes[i], NDIRECT + j) != 0
    ensures var a := Addr(blk, inodes[i], NDIRECT + j);
      && a < sb.size && OwnedBut(sb, Mark(sb, blk, a, false), inodes, owner - {a}, i, j + 1)
      && KeptOthers(blk, owner, Mark(sb, blk, a, false), owner - {a}, i)
  {
    EntryOwned(sb, blk, inodes, owner, i, j);
    var a := Addr(blk, inodes[i], NDIRECT + j);
    OwnLess(sb, blk, inodes, owner, i, j, inodes, a, j + 1);
    ClearedKeeps(sb, blk, inodes, owner, i, j, a);
  }

  lemma EmptyEntry(sb: Superblock, blk: seq<Block>, inodes: seq<Inode>, owner: map<nat, Slot>, i: nat, j: nat)
    requires OwnedBut(sb, blk, inodes, owner, i, j) && i < |inodes| && j < NINDIRECT
    requires |inodes[i].addrs| == NDIRECT + 1 && Addr(blk, inodes[i], NDIRECT + j) == 0
    ensures OwnedBut(sb, blk, inodes, owner, i, j + 1)
  {
    forall a | a in owner ensures !Skipped(owner[a], i, j + 1) {
      assert SlotAddr(blk, inodes, owner[a]) == a;
    }
  }

  /** itrunc frees the indirect block; clearing its slot makes all its entries unreachable. */
  lemma DropIndirect(sb: Superblock, blk: seq<Block>, inodes: seq<Inode>, owner: map<nat, Slot>, i: nat, inodes': seq<Inode>)
    requires OwnedBut(sb, blk, inodes, owner, i, NINDIRECT) && i < |inodes|
    requires |inodes[i].addrs| == NDIRECT + 1 && inodes[i].addrs[NDIRECT] != 0
    requires inodes' == inodes[i := inodes[i].(addrs := inodes[i].addrs[NDIRECT := 0])]
    ensures var ind := inodes[i].addrs[NDIRECT];
      && ind < sb.size && Owned(sb, Mark(sb, blk, ind, false), inodes', owner - {ind})
      && KeptOthers(blk, owner, Mark(sb, blk, ind, false), owner - {ind}, i)
  {
    var ind := inodes[i].addrs[NDIRECT];
    IndirectOwned(sb, blk, inodes, owner, i, NINDIRECT);
    ClearedKeeps(sb, blk, inodes, owner, i, NINDIRECT, ind);
    var blk', owner' := Mark(sb, blk, ind, false), owner - {ind};
    forall b | 0 <= b < sb.size ensures UsedOk(sb, blk', owner', b) {
      ClearedUsed(sb, blk, owner, ind, b);
    }
    forall s | IsSlot(inodes, s) ensures IsSlot(inodes', s) {
    }
    forall s | IsSlot(inodes', s)
      ensures IsSlot(inodes, s)
      ensures SlotAddr(blk', inodes', s) == if s == Indirect(i) || Skipped(s, i, NINDIRECT) then 0 else SlotAddr(blk, inodes, s)
    {
      var t := Indirect(s.inum);
      assert IsSlot(inodes, t) && !Skipped(t, i, NINDIRECT);
      assert SlotAddr(blk, inodes, t) != 0 ==> SlotAddr(blk, inodes, t) in owner;
      ClearedSlot(sb, blk, inodes', ind, s);
    }
    forall a | a in owner' ensures SlotAddr(blk', inodes', owner'[a]) == a {
      assert owner[a] != Indirect(i);
    }
  }

  lemma OwnedIsUsed(sb: Superblock, blk: seq<Block>, inodes: seq<Inode>, owner: map<nat, Slot>, i: nat, k: nat, a: nat)
    requires OwnedBut(sb, blk, inodes, owner, i, k) && a in owner
    ensures BlocksOk(sb, blk) && sb.Nmeta() <= a < sb.size && IsUsed(sb, blk, a)
  {
    assert UsedOk(sb, blk, owner, a);
  }

  /** itrunc frees a direct block and clears its slot. */
  lemma DropDirect(sb: Superblock, blk: seq<Block>, inodes: seq<Inode>, owner: map<nat, Slot>, i: nat, k: nat, inodes': seq<Inode>)
    requires Owned(sb, blk, inodes, owner) && i < |inodes| && k < NDIRECT && inodes[i].addrs[k] != 0
    requires inodes' == inodes[i := inodes[i].(addrs := inodes[i].addrs[k := 0])]
    ensures var a := inodes[i].addrs[k];
      && a < sb.size && Owned(sb, Mark(sb, blk, a, false), inodes', owner - {a})
      && KeptOthers(blk, owner, Mark(sb, blk, a, false), owner - {a}, i)
  {
    var s := Data(i, k);
    SlotInRange(sb, blk, inodes, owner, s);
    var a := inodes[i].addrs[k];
    OwnLess(sb, blk, inodes, owner, 0, 0, inodes', a, 0);
    ClearedKeeps(sb, blk, inodes, owner, 0, 0, a);
  }

  lemma ClearedKeeps(sb: Superblock, blk: seq<Block>, inodes: seq<Inode>, owner: map<nat, Slot>, i: nat, k: nat, a: nat)
    requires OwnedBut(sb, blk, inodes, owner, i, k) && a in owner
    ensures BlocksOk(sb, blk) && a < sb.size && KeptOthers(blk, owner, Mark(sb, blk, a, false), owner - {a}, owner[a].inum)
  {
    forall c | c in owner ensures c < sb.size && Mark(sb, blk, a, false)[c] == blk[c] {
      ClearedFrame(sb, blk, a, c);
    }
  }

  lemma FileBound(blk: seq<Block>, ino: Inode)
    requires FileOk(blk, ino)
    ensures ino.size <= MAXBYTES
  {
  }

  lemma WrittenStart(blk: seq<Block>, inodes: seq<Inode>, owner: map<nat, Slot>, i: nat, off: nat, src: seq<Byte>)
    requires i < |inodes| && FileOk(blk, inodes[i]) && off <= inodes[i].size
    ensures Written(blk, inodes, blk, inodes, i, off, src, off)
    ensures KeptOthers(blk, owner, blk, owner, i)
  {
  }

  /** The state of writei's loop at offset `o`, against the state at its start. */
  ghost predicate Round(sb: Superblock, blk: seq<Block>, inodes: seq<Inode>, owner: map<nat, Slot>, logged: set<nat>,
                        blk': seq<Block>, inodes': seq<Inode>, owner': map<nat, Slot>, logged': set<nat>, i: nat, off: nat, src: seq<Byte>, o: nat) {
    && i < |inodes| == |inodes'| && |inodes[i].addrs| == |inodes'[i].addrs| == NDIRECT + 1
    && off <= inodes[i].size && Owned(sb, blk', inodes', owner')
    && Written(blk, inodes, blk', inodes', i, off, src, o)
    && KeptOthers(blk, owner, blk', owner', i)
    && LoggedBy(sb, owner, logged, owner', logged', blk', inodes'[i], inodes[i].size, off, o)
    && (o == off ==> inodes' == inodes)
  }

  lemma RoundStart(sb: Superblock, blk: seq<Block>, inodes: seq<Inode>, owner: map<nat, Slot>, logged: set<nat>, i: nat, off: nat, src: seq<Byte>)
    requires Owned(sb, blk, inodes, owner) && i < |inodes| && FileOk(blk, inodes[i]) && off <= inodes[i].size
    ensures Round(sb, blk, inodes, owner, logged, blk, inodes, owner, logged, i, off, src, off)
  {
    hide OwnedBut, Written, KeptOthers, LoggedBy, Allocated;
    WrittenStart(blk, inodes, owner, i, off, src);
    LoggedStart(sb, owner, logged, blk, inodes[i], inodes[i].size, off);
  }

  lemma RoundFacts(sb: Superblock, blk: seq<Block>, inodes: seq<Inode>, owner: map<nat, Slot>, logged: set<nat>,
                   blk': seq<Block>, inodes': seq<Inode>, owner': map<nat, Slot>, logged': set<nat>, i: nat, off: nat, src: seq<Byte>, o: nat)
    requires Round(sb, blk, inodes, owner, logged, blk', inodes', owner', logged', i, off, src, o)
    ensures i < |inodes| == |inodes'| && |inodes[i].addrs| == |inodes'[i].addrs| == NDIRECT + 1
    ensures Owned(sb, blk', inodes', owner') && Allocated(blk', inodes'[i], Max(inodes[i].size, o))
    ensures Written(blk, inodes, blk', inodes', i, off, src, o) && KeptOthers(blk, owner, blk', owner', i)
    ensures LoggedBy(sb, owner, logged, owner', logged', blk', inodes'[i], inodes[i].size, off, o) && (o == off ==> inodes' == inodes)
    ensures |owner'.Keys| == |owner.Keys| + BlocksNeeded(inodes[i].size, o)
  {
    hide OwnedBut, Written, KeptOthers, LoggedBy, Allocated, BlocksNeeded;
    WrittenFacts(blk, inodes, blk', inodes', i, off, src, o);
    LoggedSize(sb, owner, logged, owner', logged', blk', inodes'[i], inodes[i].size, off, o);
  }

  lemma RoundStep(sb: Superblock, blk: seq<Block>, inodes: seq<Inode>, owner: map<nat, Slot>, logged: set<nat>,
                  blk1: seq<Block>, inodes1: seq<Inode>, owner1: map<nat, Slot>, logged1: set<nat>,
                  blk2: seq<Block>, inodes2: seq<Inode>, owner2: map<nat, Slot>, logged2: set<nat>,
                  i: nat, off: nat, src: seq<Byte>, o: nat, m: nat)
    requires Round(sb, blk, inodes, owner, logged, blk1, inodes1, owner1, logged1, i, off, src, o)
    requires off <= o && 0 < m && o % BSIZE + m <= BSIZE && o + m <= off + |src| && o + m <= MAXBYTES
    requires Owned(sb, blk2, inodes2, owner2) && |inodes2| == |inodes1| && KeptOthers(blk1, owner1, blk2, owner2, i)
    requires KeptInodes(blk1, inodes1, blk2, inodes2, i, o / BSIZE)
    requires var limit := Max(inodes[i].size, o);
      && |inodes2[i].addrs| == NDIRECT + 1 && Allocated(blk2, inodes2[i], Max(limit, o + m))
      && (forall k :: 0 <= k < Max(limit, o + m) ==>
            ByteAt(blk2, inodes2[i], k) == if o <= k < o + m then src[o - off..o - off + m][k - o] else ByteAt(blk1, inodes1[i], k))
      && Gains(sb, owner1, logged1, owner2, logged2, BlocksNeeded(limit, o + m),
               {Addr(blk2, inodes2[i], o / BSIZE)} + TouchedIndirect(inodes2[i], limit, o + m))
      && (Addr(blk1, inodes1[i], o / BSIZE) != 0 ==>
            inodes2 == inodes1 && Addr(blk2, inodes2[i], o / BSIZE) == Addr(blk1, inodes1[i], o / BSIZE))
    ensures Round(sb, blk, inodes, owner, logged, blk2, inodes2, owner2, logged2, i, off, src, o + m)
  {
    hide OwnedBut, Written, KeptOthers, LoggedBy, Allocated, KeptInodes, BlocksNeeded, Gains, ByteAt, Addr;
    WrittenFacts(blk, inodes, blk1, inodes1, i, off, src, o);
    WrittenStep(blk, inodes, blk1, inodes1, blk2, inodes2, i, off, src, o, m);
    KeptOthersTrans(blk, owner, blk1, owner1, blk2, owner2, i);
    LoggedStep(sb, owner, logged, owner1, logged1, owner2, logged2, blk1, inodes1, blk2, inodes2, i, inodes[i].size, off, o, m);
  }

  lemma WrittenFacts(blk: seq<Block>, inodes: seq<Inode>, blk': seq<Block>, inodes': seq<Inode>, i: nat, off: nat, src: seq<Byte>, o: nat)
    requires i < |inodes| && |inodes[i].addrs| == NDIRECT + 1
    requires Written(blk, inodes, blk', inodes', i, off, src, o)
    ensures i < |inodes'| && |inodes'[i].addrs| == NDIRECT + 1 && Allocated(blk', inodes'[i], Max(inodes[i].size, o))
  {
  }

  lemma WrittenInodes(blk: seq<Block>, inodes: seq<Inode>, blk': seq<Block>, inodes': seq<Inode>, i: nat, off: nat, src: seq<Byte>)
    requires i < |inodes| && |inodes[i].addrs| == NDIRECT + 1
    requires Written(blk, inodes, blk', inodes', i, off, src, off + |src|)
    ensures |inodes'| == |inodes| && |inodes'[i].addrs| == NDIRECT + 1 && inodes'[i].(addrs := inodes[i].addrs) == inodes[i]
    ensures forall j :: 0 <= j < |inodes| && j != i ==> inodes'[j] == inodes[j]
    ensures off + |src| <= inodes[i].size ==> inodes' == inodes
  {
  }

  /** Changing a size changes no address. */
  lemma ResizeKeeps(sb: Superblock, blk: seq<Block>, inodes: seq<Inode>, owner: map<nat, Slot>, i: nat, size: nat)
    requires Owned(sb, blk, inodes, owner) && i < |inodes|
    ensures Owned(sb, blk, inodes[i := inodes[i].(size := size)], owner)
    ensures forall lo: nat, hi: nat :: |inodes[i].addrs| == NDIRECT + 1 ==>
      DataSet(blk, inodes[i].(size := size), lo, hi) == DataSet(blk, inodes[i], lo, hi)
    ensures IndirectSet(inodes[i].(size := size)) == IndirectSet(inodes[i])
  {
    var inodes' := inodes[i := inodes[i].(size := size)];
    forall s | IsSlot(inodes, s) ensures IsSlot(inodes', s) && SlotAddr(blk, inodes', s) == SlotAddr(blk, inodes, s) {
    }
    forall s | IsSlot(inodes', s) ensures IsSlot(inodes, s) {
    }
    assert |inodes[i].addrs| == NDIRECT + 1;
    forall c | 0 <= c < MAXFILE ensures Addr(blk, inodes[i].(size := size), c) == Addr(blk, inodes[i], c) {
    }
  }

  lemma LoggedResized(sb: Superblock, owner: map<nat, Slot>, logged: set<nat>, owner': map<nat, Slot>, logged': set<nat>,
                      blk: seq<Block>, inodes: seq<Inode>, i: nat, size: nat, off: nat, end: nat)
    requires i < |inodes| && |inodes[i].addrs| == NDIRECT + 1 && size < end && Owned(sb, blk, inodes, owner')
    requires LoggedBy(sb, owner, logged, owner', logged', blk, inodes[i], size, off, end)
    ensures WriteLogged(sb, owner, logged, owner', logged' + {IBlock(sb, i)}, blk, inodes[i].(size := end), i, size, off, end)
  {
    hide OwnedBut, DataSet, LoggedBy, WriteLogged;
    ResizeKeeps(sb, blk, inodes, owner', i, end);
    LoggedAll(sb, owner, logged, owner', logged', blk, inodes[i], inodes[i].(size := end), i, size, off, end);
  }

  lemma AllFiles(sb: Superblock, blk: seq<Block>, inodes: seq<Inode>, owner: map<nat, Slot>,
                 blk': seq<Block>, inodes': seq<Inode>, owner': map<nat, Slot>, i: nat)
    requires Owned(sb, blk, inodes, owner) && FilesOk(blk, inodes) && KeptOthers(blk, owner, blk', owner', i)
    requires |inodes'| == |inodes| && i < |inodes| && FileOk(blk', inodes'[i])
    requires forall j :: 0 <= j < |inodes| && j != i ==> inodes'[j] == inodes[j]
    ensures FilesOk(blk', inodes')
    ensures forall j :: 0 <= j < |inodes| && j != i ==>
      FileOk(blk, inodes[j]) && FileOk(blk', inodes'[j]) && Content(blk', inodes'[j]) == Content(blk, inodes[j])
  {
    hide Allocated, Content;
    forall j | 0 <= j < |inodes| && j != i
      ensures FileOk(blk, inodes[j]) && FileOk(blk', inodes'[j])
      ensures inodes[j].size <= MAXBYTES && Content(blk', inodes'[j]) == Content(blk, inodes[j])
    {
      assert FileOk(blk, inodes[j]);
      FileBound(blk, inodes[j]);
      OtherFiles(sb, blk, inodes, owner, blk', owner', i, j);
    }
  }

  /** The frame of one round of writei, after the data block itself has been written. */
  lemma ChunkKeeps(blk: seq<Block>, inodes: seq<Inode>, owner: map<nat, Slot>,
                   blk1: seq<Block>, inodes1: seq<Inode>, owner1: map<nat, Slot>, blk2: seq<Block>,
                   i: nat, bn: nat, a: nat, limit: nat)
    requires i < |inodes| && bn < MAXFILE && KeptBlocks(blk, owner, blk1, owner1, i) && KeptInodes(blk, inodes, blk1, inodes1, i, bn)
    requires a in owner1 && owner1[a] == Data(i, bn) && a < |blk1| && |blk2| == |blk1|
    requires forall b :: 0 <= b < |blk1| && b != a ==> blk2[b] == blk1[b]
    requires forall s :: IsSlot(inodes1, s) ==> SlotAddr(blk2, inodes1, s) == SlotAddr(blk1, inodes1, s)
    requires Allocated(blk1, inodes1[i], limit)
    ensures KeptOthers(blk, owner, blk2, owner1, i) && KeptInodes(blk, inodes, blk2, inodes1, i, bn)
    ensures Allocated(blk2, inodes1[i], limit) && Addr(blk2, inodes1[i], bn) == Addr(blk1, inodes1[i], bn)
  {
    forall c | 0 <= c < MAXFILE ensures Addr(blk2, inodes1[i], c) == Addr(blk1, inodes1[i], c) {
      assert IsSlot(inodes1, Data(i, c));
      assert SlotAddr(blk2, inodes1, Data(i, c)) == SlotAddr(blk1, inodes1, Data(i, c));
    }
  }

  /** What one round of writei gains, once the data block has been logged. */
  lemma ChunkGains(sb: Superblock, owner: map<nat, Slot>, logged: set<nat>, owner': map<nat, Slot>, logged': set<nat>,
                   blk: seq<Block>, ino: Inode, ino': Inode, limit: nat, o: nat, m: nat, a: nat)
    requires var n, bn := NeedAt(blk, ino, o / BSIZE), o / BSIZE;
      && n == BlocksNeeded(limit, o + m) && (n > 0 && bn >= NDIRECT <==> Touches(limit, o + m))
      && Gains(sb, owner, logged, owner', logged', n, if n == 0 then {} else {a} + if bn >= NDIRECT then IndirectSet(ino') else {})
    ensures Gains(sb, owner, logged, owner', logged' + {a}, BlocksNeeded(limit, o + m), {a} + TouchedIndirect(ino', limit, o + m))
  {
    hide BitmapOf, NeedAt, BlocksNeeded;
  }

  lemma EntryKeeps(sb: Superblock, blk: seq<Block>, inodes: seq<Inode>, owner: map<nat, Slot>, i: nat, bn: nat, a: nat,
                   blk': seq<Block>)
    requires Owned(sb, blk, inodes, owner) && i < |inodes| && NDIRECT <= bn < MAXFILE
    requires inodes[i].addrs[NDIRECT] != 0 && sb.Nmeta() <= a < sb.size && a !in owner
    requires var ind := inodes[i].addrs[NDIRECT];
      && ind < sb.size && BlocksOk(sb, blk')
      && blk' == Taken(sb, blk, a)[ind := Put32(blk[ind], 4 * (bn - NDIRECT), a)]
    ensures KeptBlocks(blk, owner, blk', owner[a := Data(i, bn)], i)
    ensures Addr(blk', inodes[i], bn) == a
    ensures forall c :: 0 <= c < MAXFILE && c != bn ==> Addr(blk', inodes[i], c) == Addr(blk, inodes[i], c)
  {
    var ind := inodes[i].addrs[NDIRECT];
    IndirectKept(sb, blk, inodes, owner, i, a);
    SlotInRange(sb, blk, inodes, owner, Indirect(i));
    TakenKeeps(sb, blk, inodes, owner, a, Data(i, bn));
    GetPut(blk[ind], 4 * (bn - NDIRECT), a);
    forall c | 0 <= c < MAXFILE && c != bn ensures Addr(blk', inodes[i], c) == Addr(blk, inodes[i], c) {
      if c >= NDIRECT {
        GetPutOther(blk[ind], 4 * (bn - NDIRECT), a, 4 * (c - NDIRECT));
      }
    }
  }

  /** A fresh, zeroed indirect block gives no file block an address. */
  lemma FreshIndirect(sb: Superblock, blk: seq<Block>, inodes: seq<Inode>, owner: map<nat, Slot>, i: nat, a: nat)
    requires Owned(sb, blk, inodes, owner) && i < |inodes| && |inodes[i].addrs| == NDIRECT + 1 && inodes[i].addrs[NDIRECT] == 0
    requires sb.Nmeta() <= a < sb.size
    ensures forall c :: 0 <= c < MAXFILE ==>
      Addr(Taken(sb, blk, a), inodes[i].(addrs := inodes[i].addrs[NDIRECT := a]), c) == Addr(blk, inodes[i], c)
  {
    TakenFrame(sb, blk, a, a);
  }

  lemma KeptNothing(blk: seq<Block>, inodes: seq<Inode>, owner: map<nat, Slot>, i: nat, bn: nat)
    requires i < |inodes| && |inodes[i].addrs| == NDIRECT + 1 && bn < MAXFILE
    ensures KeptBlocks(blk, owner, blk, owner, i)
    ensures bn < NDIRECT || Addr(blk, inodes[i], bn) != 0 ==> KeptInodes(blk, inodes, blk, inodes, i, bn)
  {
  }

  /** The two allocations of bmap together. */
  lemma KeptTwice(blk: seq<Block>, inodes: seq<Inode>, owner: map<nat, Slot>,
                  blk1: seq<Block>, inodes1: seq<Inode>, owner1: map<nat, Slot>,
                  blk2: seq<Block>, inodes2: seq<Inode>, owner2: map<nat, Slot>, i: nat, bn: nat, r: Option<nat>)
    requires i < |inodes| && NDIRECT <= bn < MAXFILE && |inodes[i].addrs| == NDIRECT + 1
    requires KeptBlocks(blk, owner, blk1, owner1, i)
    requires r.Some? ==> KeptBlocks(blk1, owner1, blk2, owner2, i) && inodes2 == inodes1
    requires |inodes1| == |inodes| && |inodes1[i].addrs| == NDIRECT + 1
    requires inodes1 == inodes[i := inodes[i].(addrs := inodes[i].addrs[NDIRECT := inodes1[i].addrs[NDIRECT]])] && inodes1[i].addrs[NDIRECT] != 0
    requires inodes[i].addrs[NDIRECT] != 0 ==> inodes1[i].addrs[NDIRECT] == inodes[i].addrs[NDIRECT]
    requires forall c :: 0 <= c < MAXFILE ==> Addr(blk1, inodes1[i], c) == Addr(blk, inodes[i], c)
    requires r.Some? ==> forall c :: 0 <= c < MAXFILE && c != bn ==> Addr(blk2, inodes1[i], c) == Addr(blk1, inodes1[i], c)
    ensures r.Some? ==> KeptBlocks(blk, owner, blk2, owner2, i) && KeptInodes(blk, inodes, blk2, inodes2, i, bn)
  {
  }

  /** What the two allocations gain together. */
  lemma BmapGains(sb: Superblock, blk: seq<Block>, ino: Inode, owner: map<nat, Slot>, logged: set<nat>,
                  blk1: seq<Block>, ino1: Inode, owner1: map<nat, Slot>, logged1: set<nat>,
                  owner2: map<nat, Slot>, logged2: set<nat>, bn: nat, r: Option<nat>)
    requires NDIRECT <= bn < MAXFILE && |ino.addrs| == |ino1.addrs| == NDIRECT + 1
    requires ino1.addrs[NDIRECT] != 0 && Addr(blk1, ino1, bn) == Addr(blk, ino, bn)
    requires var f := ino.addrs[NDIRECT] == 0;
      Gains(sb, owner, logged, owner1, logged1, if f then 1 else 0, if f then {ino1.addrs[NDIRECT]} else {})
    requires var miss := Addr(blk1, ino1, bn) == 0;
      r.Some? ==> Gains(sb, owner1, logged1, owner2, logged2, if miss then 1 else 0, if miss then {r.value} + IndirectSet(ino1) else {})
    ensures r.Some? ==>
      Gains(sb, owner, logged, owner2, logged2, NeedAt(blk, ino, bn), if NeedAt(blk, ino, bn) == 0 then {} else {r.value} + IndirectSet(ino1))
    ensures |owner1.Keys| == |owner.Keys| + if ino.addrs[NDIRECT] == 0 then 1 else 0
    ensures r.Some? ==> |owner2.Keys| == |owner.Keys| + NeedAt(blk, ino, bn)
  {
    hide BitmapOf;
    var f, m := ino.addrs[NDIRECT] == 0, Addr(blk1, ino1, bn) == 0;
    assert f ==> Addr(blk, ino, bn) == 0;
    if r.Some? {
      GainsTwice(sb, owner, logged, owner1, logged1, if f then 1 else 0, if f then {ino1.addrs[NDIRECT]} else {},
                 owner2, logged2, if m then 1 else 0, if m then {r.value} + IndirectSet(ino1) else {});
      assert m && f ==> {ino1.addrs[NDIRECT]} + ({r.value} + IndirectSet(ino1)) == {r.value} + IndirectSet(ino1);
      assert {} + ({r.value} + IndirectSet(ino1)) == {r.value} + IndirectSet(ino1);
    }
  }

  const T_FILE := 2

  function EmptyInode(): (ino: Inode) { Inode(T_FILE, 0, 0, 1, 0, seq(NDIRECT + 1, _ => 0)) }

  /** Exactly the blocks below `n` are marked. */
  ghost predicate MarkedBelow(sb: Superblock, blk: seq<Block>, n: nat)
    requires BlocksOk(sb, blk)
  {
    forall c :: 0 <= c < sb.size ==> (IsUsed(sb, blk, c) <==> c < n)
  }

  lemma {:induction false} ZeroBits(k: nat)
    ensures !Bit(0, k)
  {
    if k > 0 {
      ZeroBits(k - 1);
    }
  }

  lemma NothingMarked(sb: Superblock, blk: seq<Block>)
    requires sb.Valid() && |blk| == sb.size && forall b :: 0 <= b < |blk| ==> blk[b] == Zeros(BSIZE)
    ensures BlocksOk(sb, blk) && MarkedBelow(sb, blk, 0)
  {
    forall c | 0 <= c < sb.size ensures !IsUsed(sb, blk, c) {
      InBitmap(sb, c);
      ZeroBits(c % 8);
    }
  }

  lemma MarkNext(sb: Superblock, blk: seq<Block>, b: nat)
    requires BlocksOk(sb, blk) && b < sb.size && MarkedBelow(sb, blk, b)
    ensures MarkedBelow(sb, Mark(sb, blk, b, true), b + 1)
  {
    hide Mark;
    forall c | 0 <= c < sb.size ensures IsUsed(sb, Mark(sb, blk, b, true), c) <==> c < b + 1 {
      MarkAt(sb, blk, b, true, c);
      assert IsUsed(sb, blk, c) <==> c < b;
    }
  }

  lemma EmptyOwned(sb: Superblock, blk: seq<Block>, inodes: seq<Inode>)
    requires BlocksOk(sb, blk) && MarkedBelow(sb, blk, sb.Nmeta())
    requires |inodes| == sb.ninodes && forall i :: 0 <= i < |inodes| ==> inodes[i] == EmptyInode()
    ensures Owned(sb, blk, inodes, map[]) && FilesOk(blk, inodes)
  {
    forall b | 0 <= b < sb.size ensures UsedOk(sb, blk, map[], b) {
      assert IsUsed(sb, blk, b) <==> b < sb.Nmeta();
    }
    forall i | 0 <= i < |inodes| ensures FileOk(blk, inodes[i]) {
      EmptyFile(blk, inodes[i]);
    }
  }

  lemma SlotInRange(sb: Superblock, blk: seq<Block>, inodes: seq<Inode>, owner: map<nat, Slot>, s: Slot)
    requires Owned(sb, blk, inodes, owner) && IsSlot(inodes, s) && SlotAddr(blk, inodes, s) != 0
    ensures sb.Nmeta() <= SlotAddr(blk, inodes, s) < sb.size && SlotAddr(blk, inodes, s) in owner
    ensures owner[SlotAddr(blk, inodes, s)] == s
  {
    assert !Skipped(s, 0, 0);
  }

  lemma MetaUsed(sb: Superblock, blk: seq<Block>, inodes: seq<Inode>, owner: map<nat, Slot>)
    requires Owned(sb, blk, inodes, owner)
    ensures AllUsed(sb, blk, sb.Nmeta())
  {
    forall c | 0 <= c < sb.Nmeta() ensures IsUsed(sb, blk, c) {
      assert UsedOk(sb, blk, owner, c);
    }
  }

  lemma FreeIsUnowned(sb: Superblock, blk: seq<Block>, inodes: seq<Inode>, owner: map<nat, Slot>, a: nat)
    requires Owned(sb, blk, inodes, owner) && sb.Nmeta() <= a < sb.size && !IsUsed(sb, blk, a)
    ensures a !in owner
  {
    assert UsedOk(sb, blk, owner, a);
  }

  lemma TakenKeeps(sb: Superblock, blk: seq<Block>, inodes: seq<Inode>, owner: map<nat, Slot>, a: nat, s: Slot)
    requires Owned(sb, blk, inodes, owner) && sb.Nmeta() <= a < sb.size && a !in owner
    ensures KeptBlocks(blk, owner, Taken(sb, blk, a), owner[a := s], s.inum)
    ensures forall c :: c in owner ==> c < |blk| && Taken(sb, blk, a)[c] == blk[c]
  {
    forall c | c in owner ensures c < |blk| && Taken(sb, blk, a)[c] == blk[c] {
      TakenFrame(sb, blk, a, c);
    }
  }

  lemma DirectKeeps(sb: Superblock, blk: seq<Block>, inodes: seq<Inode>, owner: map<nat, Slot>, i: nat, bn: nat, a: nat,
                    inodes': seq<Inode>)
    requires Owned(sb, blk, inodes, owner) && i < |inodes| && bn < NDIRECT && inodes[i].addrs[bn] == 0
    requires sb.Nmeta() <= a < sb.size && a !in owner
    requires inodes' == inodes[i := inodes[i].(addrs := inodes[i].addrs[bn := a])]
    ensures KeptBlocks(blk, owner, Taken(sb, blk, a), owner[a := Data(i, bn)], i)
    ensures KeptInodes(blk, inodes, Taken(sb, blk, a), inodes', i, bn)
  {
    TakenKeeps(sb, blk, inodes, owner, a, Data(i, bn));
    IndirectKept(sb, blk, inodes, owner, i, a);
  }

  lemma SplitIndex(b: nat, bi: nat)
    requires b % BPB == 0 && bi < BPB
    ensures (b + bi) / BPB == b / BPB && (b + bi) % BPB == bi && (b + bi) % 8 == bi % 8
  {
    var k := b / BPB;
    assert b == 8 * (512 * k);
    AddEights(512 * k, bi);
  }
}
