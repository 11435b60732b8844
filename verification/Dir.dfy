/**
  Directories: a file of 16-byte entries (a 16-bit inode number and a name of 14 bytes)
  that implements a finite map from names to inode numbers.
  */
module Dir {
  import opened Bytes
  import opened Common
  import opened Fs

  const DIRSIZ := 14
  const DIRENT := 16
  const T_DIR := 1

  type Name = seq<Byte>

  // ----- names

  /** The byte of a C string at `i`; the terminator where it ends. */
  function CharAt(s: Name, i: nat): (x: Byte) {
    if i < |s| then s[i] else 0
  }

  /** What a name means: its bytes up to the terminator, at most `n` of them. */
  function Key(s: Name, n: nat): (r: Name)
    ensures |r| <= n && |r| <= |s|
    ensures forall i :: 0 <= i < |r| ==> r[i] == s[i] != 0
  {
    if n == 0 || s == [] || s[0] == 0 then [] else [s[0]] + Key(s[1..], n - 1)
  }

  /** The key ends at its bound, at the end of the string or at a terminator. */
  lemma {:induction false} KeyEnds(s: Name, n: nat)
    ensures |Key(s, n)| == n || CharAt(s, |Key(s, n)|) == 0
  {
    if n > 0 && s != [] && s[0] != 0 {
      KeyEnds(s[1..], n - 1);
    }
  }

  /** The key is determined by where it ends. */
  lemma {:induction false} KeyIs(s: Name, n: nat, k: nat)
    requires k <= n && k <= |s| && (forall i :: 0 <= i < k ==> s[i] != 0)
    requires k == n || CharAt(s, k) == 0
    ensures Key(s, n) == s[..k]
  {
    if k > 0 {
      KeyIs(s[1..], n - 1, k - 1);
    }
  }

  /** namecmp: strncmp over DIRSIZ bytes returns 0 exactly for names with the same key. */
  method Namecmp(s: Name, t: Name) returns (r: int)
    ensures r == 0 <==> Key(s, DIRSIZ) == Key(t, DIRSIZ)
  {
    var i := 0;
    while i < DIRSIZ && CharAt(s, i) != 0 && CharAt(s, i) == CharAt(t, i)
      invariant 0 <= i <= DIRSIZ && i <= |s| && i <= |t|
      invariant forall j :: 0 <= j < i ==> s[j] == t[j] != 0
    {
      i := i + 1;
    }
    KeyEnds(s, DIRSIZ);
    KeyEnds(t, DIRSIZ);
    if i == DIRSIZ {
      KeyIs(s, DIRSIZ, i);
      KeyIs(t, DIRSIZ, i);
      return 0;
    }
    r := CharAt(s, i) as int - CharAt(t, i) as int;
    if r == 0 {
      KeyIs(s, DIRSIZ, i);
      KeyIs(t, DIRSIZ, i);
    } else {
      KeysDiffer(s, t, i);
    }
  }

  lemma KeysDiffer(s: Name, t: Name, i: nat)
    requires i < DIRSIZ && i <= |s| && i <= |t| && CharAt(s, i) != CharAt(t, i)
    requires forall j :: 0 <= j < i ==> s[j] == t[j] != 0
    ensures Key(s, DIRSIZ) != Key(t, DIRSIZ)
  {
    KeyEnds(s, DIRSIZ);
    KeyEnds(t, DIRSIZ);
    var k, l := Key(s, DIRSIZ), Key(t, DIRSIZ);
    if |k| <= i {
      assert |k| == i;
    } else if |l| <= i {
      assert |l| == i;
    } else {
      assert k[i] != l[i];
    }
  }

  /** strncpy(de.name, name, DIRSIZ). */
  method Strncpy(name: Name) returns (d: Name)
    ensures |d| == DIRSIZ && Key(d, DIRSIZ) == Key(name, DIRSIZ)
  {
    d := [];
    while |d| < DIRSIZ && CharAt(name, |d|) != 0
      invariant |d| <= DIRSIZ && |d| <= |name|
      invariant forall j :: 0 <= j < |d| ==> d[j] == name[j] != 0
      decreases DIRSIZ - |d|
    {
      d := d + [name[|d|]];
    }
    ghost var k := |d|;
    KeyIs(name, DIRSIZ, k);
    while |d| < DIRSIZ
      invariant k <= |d| <= DIRSIZ
      invariant forall j :: 0 <= j < k ==> d[j] == name[j] != 0
      invariant forall j :: k <= j < |d| ==> d[j] == 0
      decreases DIRSIZ - |d|
    {
      d := d + [0];
    }
    KeyIs(d, DIRSIZ, k);
    assert d[..k] == name[..k];
  }

  // ----- entries

  ghost predicate DirShape(c: seq<Byte>) {
    |c| % DIRENT == 0
  }

  function Slots(c: seq<Byte>): (n: nat) { |c| / DIRENT }

  /** The inode number in slot `k`, 0 for an empty slot. */
  function InumAt(c: seq<Byte>, k: nat): (n: nat)
    requires DIRENT * k + DIRENT <= |c|
  {
    c[DIRENT * k] as int + 256 * (c[DIRENT * k + 1] as int)
  }

  function KeyAt(c: seq<Byte>, k: nat): (n: Name)
    requires DIRENT * k + DIRENT <= |c|
  {
    Key(c[DIRENT * k + 2..DIRENT * k + DIRENT], DIRSIZ)
  }

  lemma SlotFits(c: seq<Byte>, k: nat)
    requires k < Slots(c)
    ensures DIRENT * k + DIRENT <= |c|
  {
  }

  /** Slot `k` holds an entry for `key`. */
  ghost predicate Holds(c: seq<Byte>, k: nat, key: Name) {
    k < Slots(c) && (SlotFits(c, k); InumAt(c, k) != 0 && KeyAt(c, k) == key)
  }

  /** No name has two entries. */
  ghost predicate UniqueNames(c: seq<Byte>) {
    forall j: nat, k: nat, key :: Holds(c, j, key) && Holds(c, k, key) ==> j == k
  }

  ghost predicate DirOk(c: seq<Byte>) {
    DirShape(c) && UniqueNames(c)
  }

  /** The directory as a finite map: the first `n` slots. */
  ghost function MapUpTo(c: seq<Byte>, n: nat): (m: map<Name, nat>)
    requires n <= Slots(c)
  {
    if n == 0 then map[]
    else
      SlotFits(c, n - 1);
      var m := MapUpTo(c, n - 1);
      if InumAt(c, n - 1) != 0 then m[KeyAt(c, n - 1) := InumAt(c, n - 1)] else m
  }

  ghost function DirMap(c: seq<Byte>): (m: map<Name, nat>) {
    MapUpTo(c, Slots(c))
  }

  lemma {:induction false} MapUpToAt(c: seq<Byte>, n: nat, key: Name)
    requires n <= Slots(c) && UniqueNames(c)
    ensures key in MapUpTo(c, n) ==> exists k: nat :: k < n && Holds(c, k, key)
    ensures forall k: nat :: k < n && Holds(c, k, key) ==> key in MapUpTo(c, n) && (SlotFits(c, k); MapUpTo(c, n)[key] == InumAt(c, k))
  {
    if n > 0 {
      SlotFits(c, n - 1);
      MapUpToAt(c, n - 1, key);
      if InumAt(c, n - 1) != 0 && KeyAt(c, n - 1) == key {
        assert Holds(c, n - 1, key);
      } else {
        assert !Holds(c, n - 1, key);
        if key in MapUpTo(c, n) {
          var k: nat :| k < n - 1 && Holds(c, k, key);
        }
      }
    }
  }

  /** The map, read off the slots. */
  lemma DirMapAt(c: seq<Byte>, key: Name)
    requires UniqueNames(c)
    ensures key in DirMap(c) <==> exists k: nat :: Holds(c, k, key)
    ensures forall k: nat :: Holds(c, k, key) ==> key in DirMap(c) && (SlotFits(c, k); DirMap(c)[key] == InumAt(c, k))
  {
    MapUpToAt(c, Slots(c), key);
  }

  // ----- writing a slot

  /** A directory entry as 16 bytes; the inode number is cut to 16 bits. */
  function Entry(inum: nat, name: Name): (e: seq<Byte>)
    requires |name| == DIRSIZ
    ensures |e| == DIRENT
  {
    [inum % 256, inum / 256 % 256] + name
  }

  /** The content after slot `k` has been overwritten, or appended, with `e`. */
  function WithSlot(c: seq<Byte>, k: nat, e: seq<Byte>): (r: seq<Byte>)
    requires DirShape(c) && k <= Slots(c) && |e| == DIRENT
  {
    Patched(c, DIRENT * k, e)
  }

  lemma WithSlotAt(c: seq<Byte>, k: nat, inum: nat, name: Name, j: nat)
    requires DirShape(c) && k <= Slots(c) && |name| == DIRSIZ
    ensures var c' := WithSlot(c, k, Entry(inum, name));
      && DirShape(c') && Slots(c') == Max(Slots(c), k + 1)
      && (j < Slots(c') ==>
            && DIRENT * j + DIRENT <= |c'|
            && (if j == k then InumAt(c', j) == inum % 65536 && KeyAt(c', j) == Key(name, DIRSIZ)
                else DIRENT * j + DIRENT <= |c| && InumAt(c', j) == InumAt(c, j) && KeyAt(c', j) == KeyAt(c, j)))
  {
    var e := Entry(inum, name);
    var c' := WithSlot(c, k, e);
    assert |c| == DIRENT * Slots(c);
    if j < Slots(c') {
      assert DIRENT * j + DIRENT <= |c'|;
      if j == k {
        assert c'[DIRENT * j + 2..DIRENT * j + DIRENT] == name;
        assert c'[DIRENT * j] == inum % 256 && c'[DIRENT * j + 1] == inum / 256 % 256;
      } else {
        assert DIRENT * j + DIRENT <= |c|;
        assert DIRENT * j + DIRENT <= DIRENT * k || DIRENT * k + DIRENT <= DIRENT * j;
        forall x | DIRENT * j <= x < DIRENT * j + DIRENT ensures c'[x] == c[x] {
        }
        assert c'[DIRENT * j + 2..DIRENT * j + DIRENT] == c[DIRENT * j + 2..DIRENT * j + DIRENT];
      }
    }
  }

  lemma WithSlotHolds(c: seq<Byte>, k: nat, inum: nat, name: Name, j: nat, key: Name)
    requires DirShape(c) && k <= Slots(c) && |name| == DIRSIZ
    ensures Holds(WithSlot(c, k, Entry(inum, name)), j, key) <==>
      if j == k then inum % 65536 != 0 && key == Key(name, DIRSIZ) else Holds(c, j, key)
  {
    hide WithSlot, Entry, InumAt, KeyAt;
    WithSlotAt(c, k, inum, name, j);
  }

  /** An entry written into a free place adds one name to the map and disturbs no other. */
  lemma LinkMap(c: seq<Byte>, k: nat, inum: nat, name: Name)
    requires DirOk(c) && k <= Slots(c) && |name| == DIRSIZ && inum % 65536 != 0
    requires Key(name, DIRSIZ) !in DirMap(c)
    requires k < Slots(c) ==> (SlotFits(c, k); InumAt(c, k) == 0)
    ensures var c' := WithSlot(c, k, Entry(inum, name));
      DirOk(c') && DirMap(c') == DirMap(c)[Key(name, DIRSIZ) := inum % 65536]
  {
    hide WithSlot, Entry, MapUpTo, DirMap;
    var c', added := WithSlot(c, k, Entry(inum, name)), Key(name, DIRSIZ);
    WithSlotAt(c, k, inum, name, k);
    DirMapAt(c, added);
    assert forall key :: !Holds(c, k, key);
    forall i: nat, j: nat, key | Holds(c', i, key) && Holds(c', j, key) ensures i == j {
      WithSlotHolds(c, k, inum, name, i, key);
      WithSlotHolds(c, k, inum, name, j, key);
    }
    MapsAgree(c, k, inum, name);
  }

  lemma MapsAgree(c: seq<Byte>, k: nat, inum: nat, name: Name)
    requires DirShape(c) && UniqueNames(c) && k <= Slots(c) && |name| == DIRSIZ && inum % 65536 != 0
    requires UniqueNames(WithSlot(c, k, Entry(inum, name)))
    requires forall key :: !Holds(c, k, key)
    ensures DirMap(WithSlot(c, k, Entry(inum, name))) == DirMap(c)[Key(name, DIRSIZ) := inum % 65536]
  {
    hide WithSlot, Entry, MapUpTo, DirMap;
    var c', added := WithSlot(c, k, Entry(inum, name)), Key(name, DIRSIZ);
    var m, m' := DirMap(c), DirMap(c');
    forall key
      ensures key in m' <==> key == added || key in m
      ensures key in m' ==> m'[key] == if key == added then inum % 65536 else m[key]
    {
      DirMapAt(c, key);
      DirMapAt(c', key);
      MapAgrees(c, k, inum, name, key);
    }
  }

  lemma MapAgrees(c: seq<Byte>, k: nat, inum: nat, name: Name, key: Name)
    requires DirShape(c) && UniqueNames(c) && k <= Slots(c) && |name| == DIRSIZ && inum % 65536 != 0
    requires UniqueNames(WithSlot(c, k, Entry(inum, name)))
    requires forall x :: !Holds(c, k, x)
    ensures var c', added := WithSlot(c, k, Entry(inum, name)), Key(name, DIRSIZ);
      && (key in DirMap(c') <==> key == added || key in DirMap(c))
      && (key in DirMap(c') ==> DirMap(c')[key] == if key == added then inum % 65536 else DirMap(c)[key])
  {
    hide WithSlot, Entry, MapUpTo, DirMap, InumAt, KeyAt;
    var c', added := WithSlot(c, k, Entry(inum, name)), Key(name, DIRSIZ);
    DirMapAt(c, key);
    DirMapAt(c', key);
    WithSlotAt(c, k, inum, name, k);
    WithSlotHolds(c, k, inum, name, k, key);
    if key == added {
      assert Holds(c', k, key);
    } else {
      if j: nat :| Holds(c', j, key) {
        WithSlotHolds(c, k, inum, name, j, key);
        WithSlotAt(c, k, inum, name, j);
        assert Holds(c, j, key);
      }
      if j: nat :| Holds(c, j, key) {
        WithSlotHolds(c, k, inum, name, j, key);
        assert Holds(c', j, key);
      }
    }
  }

  /** Writing an entry whose inode number is 0 in 16 bits removes the name that was in the slot, if any. */
  lemma ClearMap(c: seq<Byte>, k: nat, inum: nat, name: Name)
    requires DirOk(c) && k <= Slots(c) && |name| == DIRSIZ && inum % 65536 == 0
    ensures var c' := WithSlot(c, k, Entry(inum, name));
      && DirOk(c')
      && DirMap(c') == DirMap(c) - (if k < Slots(c) then (SlotFits(c, k); if InumAt(c, k) != 0 then {KeyAt(c, k)} else {}) else {})
  {
    hide WithSlot, Entry, MapUpTo, DirMap;
    var c' := WithSlot(c, k, Entry(inum, name));
    WithSlotAt(c, k, inum, name, k);
    forall i: nat, j: nat, key | Holds(c', i, key) && Holds(c', j, key) ensures i == j {
      WithSlotHolds(c, k, inum, name, i, key);
      WithSlotHolds(c, k, inum, name, j, key);
    }
    var m, m' := DirMap(c), DirMap(c');
    forall key
      ensures key in m' <==> key in m && !Holds(c, k, key)
      ensures key in m' ==> m'[key] == m[key]
    {
      ClearAgrees(c, k, inum, name, key);
    }
    forall key ensures Holds(c, k, key) <==> k < Slots(c) && (SlotFits(c, k); InumAt(c, k) != 0 && KeyAt(c, k) == key) {
    }
  }

  lemma ClearAgrees(c: seq<Byte>, k: nat, inum: nat, name: Name, key: Name)
    requires DirOk(c) && k <= Slots(c) && |name| == DIRSIZ && inum % 65536 == 0
    requires UniqueNames(WithSlot(c, k, Entry(inum, name)))
    ensures var c' := WithSlot(c, k, Entry(inum, name));
      && (key in DirMap(c') <==> key in DirMap(c) && !Holds(c, k, key))
      && (key in DirMap(c') ==> DirMap(c')[key] == DirMap(c)[key])
  {
    hide WithSlot, Entry, MapUpTo, DirMap, InumAt, KeyAt;
    var c' := WithSlot(c, k, Entry(inum, name));
    DirMapAt(c, key);
    DirMapAt(c', key);
    WithSlotHolds(c, k, inum, name, k, key);
    if j: nat :| Holds(c', j, key) {
      WithSlotHolds(c, k, inum, name, j, key);
      WithSlotAt(c, k, inum, name, j);
      assert Holds(c, j, key);
    }
    if j: nat :| Holds(c, j, key) && j != k {
      WithSlotHolds(c, k, inum, name, j, key);
      assert Holds(c', j, key);
    }
  }

  // ----- the operations

  /** A linked name reads back the inode number exactly when the number fits the entry's 16 bits and is not 0. */
  lemma LinkReadsBack(c: seq<Byte>, k: nat, inum: nat, name: Name)
    requires DirOk(c) && k <= Slots(c) && |name| == DIRSIZ && Key(name, DIRSIZ) !in DirMap(c)
    requires k < Slots(c) ==> (SlotFits(c, k); InumAt(c, k) == 0)
    ensures var m, key := DirMap(WithSlot(c, k, Entry(inum, name))), Key(name, DIRSIZ);
      key in m && m[key] == inum <==> 0 < inum < 65536
  {
    hide WithSlot, Entry, DirMap;
    if inum % 65536 != 0 {
      LinkMap(c, k, inum, name);
    } else {
      ClearMap(c, k, inum, name);
    }
  }

  /** Found: the inode number and byte offset of the entry. */
  datatype LookupResult = Found(inum: nat, off: nat) | NotFound
  datatype LinkResult = Linked | Exists | LinkPanic

  class Directory {
    const fs: FileSystem
    const dp: nat            // the directory's inode number

    constructor (fs: FileSystem, dp: nat)
      ensures this.fs == fs && this.dp == dp
    {
      this.fs, this.dp := fs, dp;
    }

    ghost predicate Valid()
      reads this, fs
    {
      && fs.Quiet() && dp < |fs.inodes| && fs.inodes[dp].typ == T_DIR
      && FileOk(fs.blk, fs.inodes[dp]) && DirOk(Content(fs.blk, fs.inodes[dp]))
    }

    ghost function Bytes(): (c: seq<Byte>)
      requires Valid()
      reads this, fs
    {
      Content(fs.blk, fs.inodes[dp])
    }

    ghost function Map(): (m: map<Name, nat>)
      requires Valid()
      reads this, fs
    {
      DirMap(Bytes())
    }

    /** readi of one entry. */
    method ReadEntry(off: nat) returns (e: seq<Byte>)
      requires Valid() && off % DIRENT == 0 && off < fs.inodes[dp].size
      modifies fs`blk, fs`inodes, fs`owner, fs`logged
      ensures fs.blk == old(fs.blk) && fs.inodes == old(fs.inodes) && fs.owner == old(fs.owner) && fs.logged == old(fs.logged)
      ensures Valid() && |e| == DIRENT && off + DIRENT <= |Bytes()| && e == Bytes()[off..off + DIRENT]
    {
      hide OwnedBut, Allocated, UniqueNames, FilesOk;
      SizeBound(fs.blk, fs.inodes[dp]);
      var r := fs.Readi(dp, off, DIRENT);
      assert off + DIRENT <= fs.inodes[dp].size;
      return r.data;
    }

    /** dirlookup: the entry of `name` exactly when the map has it. */
    method DirLookup(name: Name) returns (r: LookupResult)
      requires Valid()
      modifies fs`blk, fs`inodes, fs`owner, fs`logged
      ensures fs.blk == old(fs.blk) && fs.inodes == old(fs.inodes) && fs.owner == old(fs.owner) && fs.logged == old(fs.logged)
      ensures Valid()
      ensures r.Found? <==> Key(name, DIRSIZ) in Map()
      ensures r.Found? ==>
        && r.inum == Map()[Key(name, DIRSIZ)]
        && r.off % DIRENT == 0 && Holds(Bytes(), r.off / DIRENT, Key(name, DIRSIZ))
    {
      hide OwnedBut, Allocated, UniqueNames, FilesOk, DirMap, Holds, Content;
      ghost var c, key := Bytes(), Key(name, DIRSIZ);
      DirMapAt(c, key);
      var off := 0;
      while off < fs.inodes[dp].size
        invariant Valid() && off % DIRENT == 0 && off <= fs.inodes[dp].size + DIRENT && c == Bytes()
        invariant fs.blk == old(fs.blk) && fs.inodes == old(fs.inodes) && fs.owner == old(fs.owner) && fs.logged == old(fs.logged)
        invariant forall k: nat :: k < off / DIRENT ==> !Holds(c, k, key)
      {
        var de := ReadEntry(off);
        EntryAt(c, off, de, key);
        var inum := de[0] as int + 256 * (de[1] as int);
        if inum != 0 {
          var cmp := Namecmp(name, de[2..]);
          if cmp == 0 {
            return Found(inum, off);
          }
        }
        NextSlot(off);
        off := off + DIRENT;
      }
      AllSlots(c, off, key);
      return NotFound;
    }

    /** The second loop of dirlink: the lowest empty slot, or the end. */
    method FreeSlot() returns (off: nat)
      requires Valid()
      modifies fs`blk, fs`inodes, fs`owner, fs`logged
      ensures fs.blk == old(fs.blk) && fs.inodes == old(fs.inodes) && fs.owner == old(fs.owner) && fs.logged == old(fs.logged)
      ensures Valid() && off % DIRENT == 0 && off <= |Bytes()|
      ensures off < |Bytes()| ==> off + DIRENT <= |Bytes()| && InumAt(Bytes(), off / DIRENT) == 0
      ensures SlotsTaken(Bytes(), off / DIRENT)
    {
      hide OwnedBut, Allocated, UniqueNames, FilesOk, DirMap, Holds, Content, SlotsTaken;
      ghost var c := Bytes();
      off := 0;
      NoneTaken(c);
      while off < fs.inodes[dp].size
        invariant Valid() && off % DIRENT == 0 && off <= fs.inodes[dp].size && c == Bytes()
        invariant SlotsTaken(c, off / DIRENT)
        invariant fs.blk == old(fs.blk) && fs.inodes == old(fs.inodes) && fs.owner == old(fs.owner) && fs.logged == old(fs.logged)
      {
        var de := ReadEntry(off);
        EntryAt(c, off, de, []);
        if de[0] as int + 256 * (de[1] as int) == 0 {
          return;
        }
        NextSlot(off);
        TakenNext(c, off);
        off := off + DIRENT;
      }
    }

    /** writei of one entry, in a slot or at the end. */
    method WriteEntry(off: nat, inum: nat, name: Name) returns (ok: bool)
      requires Valid() && off % DIRENT == 0 && off <= |Bytes()| && |name| == DIRSIZ
      modifies fs
      ensures !ok <==> EntryRefused(fs.sb, old(fs.blk), old(|Bytes()|), off)
      ensures ok ==>
        && fs.Quiet() && |fs.inodes| == old(|fs.inodes|) && fs.inodes[dp].typ == T_DIR
        && fs.inodes[dp].size <= MAXBYTES
        && Content(fs.blk, fs.inodes[dp]) == WithSlot(old(Bytes()), off / DIRENT, Entry(inum, name))
        && OtherFilesSame(old(fs.blk), old(fs.inodes), fs.blk, fs.inodes, dp)
    {
      hide OwnedBut, Allocated, UniqueNames, DirMap, Holds, Content, Patched, AllUsed, WriteLogged, FreeBlocks, BlocksNeeded;
      SizeBound(fs.blk, fs.inodes[dp]);
      ghost var blk0, inodes0 := fs.blk, fs.inodes;
      assert forall j :: 0 <= j < |fs.inodes| ==> FileOk(fs.blk, fs.inodes[j]);
      forall j | 0 <= j < |fs.inodes| ensures fs.inodes[j].size <= MAXBYTES { SizeBound(fs.blk, fs.inodes[j]); }
      var w := fs.Writei(dp, Entry(inum, name), off);
      if !w.Wrote? {
        LastSlot(off);
        return false;
      }
      assert FileOk(fs.blk, fs.inodes[dp]);
      SizeBound(fs.blk, fs.inodes[dp]);
      return true;
    }

    /**
      dirlink: refused, with nothing changed, when the map has the name; otherwise the map
      gains the name with the inode number in 16 bits.  LinkPanic is a directory of maximal
      size or a full disk.
      */
    method DirLink(name: Name, inum: nat) returns (r: LinkResult)
      requires Valid()
      modifies fs
      ensures r.Exists? <==> Key(name, DIRSIZ) in old(Map())
      ensures r.Exists? ==> fs.blk == old(fs.blk) && fs.inodes == old(fs.inodes) && Valid()
      ensures r.LinkPanic? <==>
        !r.Exists? && SlotsTaken(old(Bytes()), Slots(old(Bytes()))) && EntryRefused(fs.sb, old(fs.blk), old(|Bytes()|), old(|Bytes()|))
      ensures r.Linked? ==>
        && Valid() && OtherFilesSame(old(fs.blk), old(fs.inodes), fs.blk, fs.inodes, dp)
        && Map() == if inum % 65536 != 0 then old(Map())[Key(name, DIRSIZ) := inum % 65536] else old(Map())
    {
      hide OwnedBut, Allocated, UniqueNames, FilesOk, DirMap, Holds, Content, AllUsed, WithSlot, Entry, EntryRefused, SlotsTaken;
      ghost var c := Bytes();
      var look := DirLookup(name);
      if look.Found? {
        return Exists;
      }
      var off := FreeSlot();
      OwnedBlocks(fs.sb, fs.blk, fs.inodes, fs.owner);
      SizeBound(fs.blk, fs.inodes[dp]);
      LinkPlace(fs.sb, fs.blk, c, off);
      var d := Strncpy(name);
      var ok := WriteEntry(off, inum, d);
      if !ok {
        return LinkPanic;
      }
      SlotOf(c, off);
      FileOkAt(fs, dp);
      if inum % 65536 != 0 {
        LinkMap(c, off / DIRENT, inum, d);
      } else {
        ClearMap(c, off / DIRENT, inum, d);
      }
      return Linked;
    }

    /** The part of unlink that clears the entry found by dirlookup at `off`: the map loses that name and nothing else. */
    method ClearEntry(off: nat, ghost key: Name)
      requires Valid() && off % DIRENT == 0 && Holds(Bytes(), off / DIRENT, key)
      modifies fs
      ensures Valid() && OtherFilesSame(old(fs.blk), old(fs.inodes), fs.blk, fs.inodes, dp)
      ensures Map() == old(Map()) - {key}
    {
      hide OwnedBut, Allocated, UniqueNames, FilesOk, DirMap, Content, AllUsed, WithSlot, Entry;
      ghost var c := Bytes();
      SlotOf(c, off);
      SlotFits(c, off / DIRENT);
      OwnedBlocks(fs.sb, fs.blk, fs.inodes, fs.owner);
      SizeBound(fs.blk, fs.inodes[dp]);
      SlotNeedsNothing(fs.sb, fs.blk, |c|, off);
      var ok := WriteEntry(off, 0, Zeros(DIRSIZ));
      assert ok;    // the panic is unreachable
      FileOkAt(fs, dp);
      ClearMap(c, off / DIRENT, 0, Zeros(DIRSIZ));
    }
  }

  /** writei of an entry at `off` fails: at the end of a directory of maximal size, or without the blocks it needs. */
  ghost predicate EntryRefused(sb: Superblock, blk: seq<Block>, size: nat, off: nat)
    requires BlocksOk(sb, blk)
  {
    off + DIRENT > MAXBYTES || |FreeBlocks(sb, blk)| < BlocksNeeded(size, off + DIRENT)
  }

  lemma SlotNeedsNothing(sb: Superblock, blk: seq<Block>, size: nat, off: nat)
    requires BlocksOk(sb, blk) && off + DIRENT <= size <= MAXBYTES
    ensures !EntryRefused(sb, blk, size, off)
  {
    hide FreeBlocks;
  }

  /** The first `k` slots all hold entries. */
  ghost predicate SlotsTaken(c: seq<Byte>, k: nat) {
    k <= Slots(c) && forall j :: 0 <= j < k ==> (SlotFits(c, j); InumAt(c, j) != 0)
  }

  /** dirlink writes at the end exactly when every slot is taken; in a slot the write cannot fail. */
  lemma LinkPlace(sb: Superblock, blk: seq<Block>, c: seq<Byte>, off: nat)
    requires BlocksOk(sb, blk) && DirShape(c) && |c| <= MAXBYTES && off % DIRENT == 0 && off <= |c| && SlotsTaken(c, off / DIRENT)
    requires off < |c| ==> off + DIRENT <= |c| && InumAt(c, off / DIRENT) == 0
    ensures SlotsTaken(c, Slots(c)) <==> off == |c|
    ensures off < |c| ==> !EntryRefused(sb, blk, |c|, off)
  {
    if off < |c| {
      SlotNeedsNothing(sb, blk, |c|, off);
      assert off / DIRENT < Slots(c);
    }
  }

  lemma NoneTaken(c: seq<Byte>)
    ensures SlotsTaken(c, 0)
  {
  }

  lemma TakenNext(c: seq<Byte>, off: nat)
    requires off % DIRENT == 0 && off + DIRENT <= |c| && SlotsTaken(c, off / DIRENT) && InumAt(c, off / DIRENT) != 0
    ensures SlotsTaken(c, (off + DIRENT) / DIRENT)
  {
  }

  /** Every file but `dp` has kept its inode and its content. */
  ghost predicate OtherFilesSame(blk: seq<Block>, inodes: seq<Inode>, blk': seq<Block>, inodes': seq<Inode>, dp: nat) {
    && |inodes'| == |inodes|
    && (forall j :: 0 <= j < |inodes| && j != dp ==>
          && inodes'[j] == inodes[j] && |inodes[j].addrs| == NDIRECT + 1 && inodes[j].size <= MAXBYTES
          && Content(blk', inodes[j]) == Content(blk, inodes[j]))
  }

  lemma LastSlot(off: nat)
    requires off % DIRENT == 0
    ensures off + DIRENT > MAXBYTES && off <= MAXBYTES ==> off == MAXBYTES
  {
  }

  lemma SlotOf(c: seq<Byte>, off: nat)
    requires DirShape(c) && off % DIRENT == 0 && off <= |c|
    ensures off / DIRENT <= Slots(c) && (off == |c| <==> off / DIRENT == Slots(c))
  {
  }

  lemma FileOkAt(fs: FileSystem, i: nat)
    requires fs.Quiet() && i < |fs.inodes|
    ensures FileOk(fs.blk, fs.inodes[i]) && fs.inodes[i].size <= MAXBYTES
  {
  }

  lemma SizeBound(blk: seq<Block>, ino: Inode)
    requires FileOk(blk, ino)
    ensures ino.size <= MAXBYTES
  {
  }

  lemma NextSlot(off: nat)
    requires off % DIRENT == 0
    ensures (off + DIRENT) % DIRENT == 0 && (off + DIRENT) / DIRENT == off / DIRENT + 1
  {
  }

  /** What the 16 bytes at `off` say about their slot. */
  lemma EntryAt(c: seq<Byte>, off: nat, de: seq<Byte>, key: Name)
    requires off % DIRENT == 0 && off + DIRENT <= |c| && de == c[off..off + DIRENT]
    ensures var k, inum := off / DIRENT, de[0] as int + 256 * (de[1] as int);
      && DIRENT * k == off && InumAt(c, k) == inum
      && (Holds(c, k, key) <==> inum != 0 && Key(de[2..], DIRSIZ) == key)
  {
    var k := off / DIRENT;
    assert de[2..] == c[DIRENT * k + 2..DIRENT * k + DIRENT];
  }

  lemma AllSlots(c: seq<Byte>, off: nat, key: Name)
    requires off % DIRENT == 0 && |c| <= off && forall k: nat :: k < off / DIRENT ==> !Holds(c, k, key)
    ensures forall k: nat :: !Holds(c, k, key)
  {
    assert Slots(c) <= off / DIRENT;
  }
}
