/**
  Two-level page tables over a pool of physical frames.  `mem` gives the 1024 words of
  every frame, `free` is kalloc's list.  A page-table word is frame * 4096 + flags.

  `role` is a ghost map that says what each frame taken for the directory in hand is used
  for: the directory itself, the table of one directory entry, or one user page.
  */
module Vm {
  import opened Common

  const PGSIZE := 4096
  const NENTRIES := 1024
  const KERNBASE := 0x8000_0000
  const KERNLINK := 0x8010_0000
  const EXTMEM := 0x10_0000
  const PHYSTOP := 0xE00_0000
  const DEVSPACE := 0xFE00_0000
  const PTE_W := 2
  const PTE_U := 4
  const JUNK := 0x0101_0101

  type Page = seq<nat>
  type Memory = map<nat, Page>

  datatype Role = Directory | Table(i: nat) | User(pn: nat)

  predicate Present(w: nat) { w % 2 == 1 }
  predicate Writable(w: nat) { w / PTE_W % 2 == 1 }
  predicate ForUser(w: nat) { w / PTE_U % 2 == 1 }
  function FrameOf(w: nat): (f: nat) { w / PGSIZE }
  function Flags(w: nat): (x: nat) { w % PGSIZE }

  /** pa | perm | PTE_P for a page-aligned pa. */
  function Pte(f: nat, perm: nat): (w: nat)
    requires perm < PGSIZE
    ensures Present(w) && FrameOf(w) == f && Flags(w) == if Present(perm) then perm else perm + 1
  {
    var x := if Present(perm) then perm else perm + 1;
    WordParts(f, x);
    f * PGSIZE + x
  }

  lemma WordParts(f: nat, x: nat)
    requires x < PGSIZE
    ensures (f * PGSIZE + x) / PGSIZE == f && (f * PGSIZE + x) % PGSIZE == x && (f * PGSIZE + x) % 2 == x % 2
  {
    assert f * PGSIZE == 2 * (f * 2048);
  }

  lemma FlagBits(perm: nat, f: nat)
    requires perm in {0, PTE_W, PTE_U, PTE_W + PTE_U}
    ensures ForUser(Pte(f, perm)) <==> perm >= PTE_U
    ensures Writable(Pte(f, perm)) <==> perm % PTE_U == PTE_W
  {
    var h, w := 512 * f, Pte(f, perm);
    assert w == 8 * h + perm + 1;
    LowBits(h, perm + 1);
  }

  lemma LowBits(h: nat, x: nat)
    requires x < 8
    ensures (8 * h + x) / 4 % 2 == x / 4 && (8 * h + x) / 2 % 2 == x / 2 % 2
  {
    if x < 4 {
      Quarter(8 * h + x, 2 * h, x);
    } else {
      Quarter(8 * h + x, 2 * h + 1, x - 4);
    }
    Half(8 * h + x, 4 * h + x / 2, x % 2);
    Half(4 * h + x / 2, 2 * h + x / 4, x / 2 % 2);
  }

  lemma Quarter(n: nat, q: nat, r: nat)
    requires n == 4 * q + r && r < 4
    ensures n / 4 == q
  {
  }

  lemma Half(n: nat, q: nat, r: nat)
    requires n == 2 * q + r && r < 2
    ensures n / 2 == q && n % 2 == r
  {
  }

  /** Page number `pn` of the virtual address space: its directory and table index. */
  function Pdx(pn: nat): (i: nat) { pn / NENTRIES }
  function Ptx(pn: nat): (j: nat)
    ensures j < NENTRIES
  {
    pn % NENTRIES
  }

  const NPAGES := 0x10_0000     // pages of the virtual address space
  const UPAGES := 0x8_0000      // pages below KERNBASE

  /** The page-table word of page `pn` under directory `d`, 0 where there is no table. */
  function Lookup(mem: Memory, d: nat, pn: nat): (w: nat)
    requires pn < NPAGES
  {
    if d !in mem || |mem[d]| != NENTRIES then 0
    else
      var pde := mem[d][Pdx(pn)];
      var t := FrameOf(pde);
      if !Present(pde) || t !in mem || |mem[t]| != NENTRIES then 0 else mem[t][Ptx(pn)]
  }

  /** The page-table word that translates address `va`. */
  function WordAt(mem: Memory, d: nat, va: nat): (w: nat)
    requires va < WORD
  {
    Lookup(mem, d, va / PGSIZE)
  }

  /**
    The word of a kernel address: physical memory below PHYSTOP appears at KERNBASE, devices
    appear at their own addresses, nothing is open to user code, and only the kernel's text,
    which ends at `data`, is read-only.  Everywhere else there is no page.
    */
  predicate KernelSpace(data: nat, va: nat, w: nat) {
    && (Present(w) <==> KERNBASE <= va < KERNBASE + PHYSTOP || DEVSPACE <= va)
    && (Present(w) ==>
          && FrameOf(w) == (if va < DEVSPACE then va - KERNBASE else va) / PGSIZE
          && !ForUser(w) && (Writable(w) <==> va < KERNLINK || data <= va))
    && (!Present(w) ==> w == 0)
  }

  function FreeSet(free: seq<nat>): (r: set<nat>) {
    set f | f in free
  }

  /** Every frame is a page; the free frames are distinct, and none is frame 0, which the kernel never frees. */
  ghost predicate Pool(mem: Memory, free: seq<nat>) {
    && (forall f :: f in mem ==> |mem[f]| == NENTRIES)
    && (forall f :: f in free ==> f in mem && f != 0)
    && (forall i, j :: 0 <= i < j < |free| ==> free[i] != free[j])
  }

  /** The directory has gained the tables of entries `lo` to `hi`. */
  ghost predicate Widened(mem: Memory, mem': Memory, d: nat, lo: nat, hi: nat) {
    && d in mem && d in mem' && |mem[d]| == |mem'[d]| == NENTRIES
    && forall e :: 0 <= e < NENTRIES ==> (Present(mem'[d][e]) <==> Present(mem[d][e]) || lo <= e <= hi)
  }

  /** Pages `first` to `last` are mapped to the frames from `fr` on, and no other translation has changed. */
  ghost predicate RangeMapped(mem: Memory, mem': Memory, d: nat, first: nat, last: nat, fr: nat, perm: nat)
    requires perm < PGSIZE
  {
    forall q :: 0 <= q < NPAGES ==> Lookup(mem', d, q) == if first <= q <= last then Pte(fr + (q - first), perm) else Lookup(mem, d, q)
  }

  /** mappages has run out of frames on pages `first` to `last`: one of their tables is missing. */
  ghost predicate Stuck(mem: Memory, mem': Memory, d: nat, first: nat, last: nat) {
    && d in mem && d in mem' && |mem[d]| == |mem'[d]| == NENTRIES && last < NPAGES
    && (forall e :: 0 <= e < NENTRIES && Present(mem'[d][e]) ==> Present(mem[d][e]) || Pdx(first) <= e <= Pdx(last))
    && (exists e :: Pdx(first) <= e <= Pdx(last) && !Present(mem'[d][e]))
    && (forall q :: 0 <= q < NPAGES && !(first <= q <= last) ==> Lookup(mem', d, q) == Lookup(mem, d, q))
  }

  lemma WidenedSame(mem: Memory, mem1: Memory, mem2: Memory, d: nat, lo: nat, hi: nat)
    requires Widened(mem, mem1, d, lo, hi) && d in mem2 && mem2[d] == mem1[d]
    ensures Widened(mem, mem2, d, lo, hi)
  {
  }

  lemma WidenedFrom(mem: Memory, mem1: Memory, mem2: Memory, d: nat, lo: nat, hi: nat)
    requires Widened(mem1, mem2, d, lo, hi) && d in mem && mem[d] == mem1[d]
    ensures Widened(mem, mem2, d, lo, hi)
  {
  }

  lemma StuckAt(mem: Memory, mem': Memory, d: nat, i: nat)
    requires Stuck(mem, mem', d, i, i) && mem == mem'
    ensures !Present(mem[d][Pdx(i)])
  {
  }

  lemma WidenedMore(mem: Memory, mem1: Memory, mem2: Memory, d: nat, first: nat, a: nat)
    requires first <= a && (if a == first then mem == mem1 else Widened(mem, mem1, d, Pdx(first), Pdx(a - 1)))
    requires Widened(mem1, mem2, d, Pdx(a), Pdx(a))
    ensures Widened(mem, mem2, d, Pdx(first), Pdx(a))
  {
    assert a > first ==> Pdx(a - 1) <= Pdx(a) <= Pdx(a - 1) + 1;
  }

  lemma NowStuck(mem: Memory, mem': Memory, d: nat, first: nat, a: nat, last: nat)
    requires first <= a <= last < NPAGES && d in mem && d in mem' && |mem[d]| == |mem'[d]| == NENTRIES
    requires if a == first then mem == mem' else Widened(mem, mem', d, Pdx(first), Pdx(a - 1))
    requires !Present(mem'[d][Pdx(a)])
    requires forall q :: 0 <= q < NPAGES && !(first <= q < a) ==> Lookup(mem', d, q) == Lookup(mem, d, q)
    ensures Stuck(mem, mem', d, first, last)
  {
    hide Lookup;
    assert Pdx(first) <= Pdx(a) <= Pdx(last);
    assert a > first ==> Pdx(a - 1) <= Pdx(last);
  }

  /** `role` describes the frames of directory `d`: no frame has two uses, none is free, none is forgotten. */
  ghost predicate Tree(mem: Memory, free: seq<nat>, d: nat, role: map<nat, Role>) {
    && Pool(mem, free)
    && (forall f :: f in role ==> f in mem && f !in free && f != 0)
    && d in role && role[d] == Directory
    && (forall i :: 0 <= i < NENTRIES ==> EntryOk(mem, d, role, i))
    && (forall pn :: 0 <= pn < UPAGES ==> UserOk(mem, d, role, pn))
    && (forall f :: f in role ==> RoleOk(mem, d, role, f))
  }

  ghost predicate EntryOk(mem: Memory, d: nat, role: map<nat, Role>, i: nat)
    requires d in mem && |mem[d]| == NENTRIES && i < NENTRIES
  {
    Present(mem[d][i]) ==>
      FrameOf(mem[d][i]) in role && role[FrameOf(mem[d][i])] == Table(i) && ForUser(mem[d][i]) && Writable(mem[d][i])
  }

  ghost predicate UserOk(mem: Memory, d: nat, role: map<nat, Role>, pn: nat)
    requires pn < UPAGES
  {
    Present(Lookup(mem, d, pn)) ==> FrameOf(Lookup(mem, d, pn)) in role && role[FrameOf(Lookup(mem, d, pn))] == User(pn)
  }

  /** A frame in use is reached from the directory in its role. */
  ghost predicate RoleOk(mem: Memory, d: nat, role: map<nat, Role>, f: nat)
    requires f in role && d in mem && |mem[d]| == NENTRIES
  {
    match role[f]
    case Directory => f == d
    case Table(i) => i < NENTRIES && Present(mem[d][i]) && FrameOf(mem[d][i]) == f
    case User(pn) => pn < UPAGES && Present(Lookup(mem, d, pn)) && FrameOf(Lookup(mem, d, pn)) == f
  }

  /**
    Only frames that were free, or hold the directory or its tables, have been written; roles
    are kept, and frames are only taken from the free list.
    */
  ghost predicate Grown(mem: Memory, free: seq<nat>, role: map<nat, Role>, mem': Memory, free': seq<nat>, role': map<nat, Role>) {
    && mem'.Keys == mem.Keys && (forall g :: g in free' ==> g in free)
    && (forall g :: g in mem && (g !in Held(free, role) || (g in role && role[g].User?)) ==> mem'[g] == mem[g])
    && (forall g :: g in role ==> g in role' && role'[g] == role[g])
  }

  lemma GrownKeys(mem: Memory, free: seq<nat>, role: map<nat, Role>, mem': Memory, free': seq<nat>, role': map<nat, Role>)
    requires Grown(mem, free, role, mem', free', role')
    ensures mem'.Keys == mem.Keys
  {
  }

  lemma GrownSelf(mem: Memory, free: seq<nat>, role: map<nat, Role>)
    ensures Grown(mem, free, role, mem, free, role)
  {
  }

  /** Writing a page-table word, and giving a frame from outside a role. */
  lemma GrownWord(mem0: Memory, free0: seq<nat>, role0: map<nat, Role>, mem: Memory, free: seq<nat>, role: map<nat, Role>,
                  d: nat, pn: nat, w: nat, role': map<nat, Role>)
    requires Grown(mem0, free0, role0, mem, free, role) && Held(free, role) == Held(free0, role0)
    requires Tree(mem, free, d, role) && HasTable(mem, d, pn)
    requires forall g :: g in role ==> g in role' && role'[g] == role[g]
    ensures Grown(mem0, free0, role0, WithWord(mem, d, pn, w), free, role')
  {
    hide Tree, WithWord;
    WordFrame(mem, free, d, role, pn, w);
  }

  /** What was in use before the directory is untouched. */
  lemma GrownOutside(mem0: Memory, free0: seq<nat>, mem1: Memory, free1: seq<nat>, role1: map<nat, Role>, mem: Memory, free: seq<nat>, role: map<nat, Role>)
    requires Grown(mem1, free1, role1, mem, free, role) && Held(free1, role1) == FreeSet(free0) && mem1.Keys == mem0.Keys
    requires forall g :: g in mem0 && g !in free0 ==> mem1[g] == mem0[g]
    ensures mem.Keys == mem0.Keys && (forall g :: g in free ==> g in free1)
    ensures forall g :: g in mem0 && g !in free0 ==> mem[g] == mem0[g]
  {
  }

  lemma GrownUsers(mem: Memory, free: seq<nat>, role: map<nat, Role>, mem': Memory, free': seq<nat>, role': map<nat, Role>)
    requires Grown(mem, free, role, mem', free', role')
    ensures mem'.Keys == mem.Keys
    ensures forall g :: g in mem && g in role && role[g].User? ==> mem'[g] == mem[g]
    ensures forall g :: g in role ==> g in role' && role'[g] == role[g]
  {
  }

  /** A frame outside keeps its contents. */
  lemma GrownAt(mem: Memory, free: seq<nat>, role: map<nat, Role>, mem': Memory, free': seq<nat>, role': map<nat, Role>, f: nat)
    requires Grown(mem, free, role, mem', free', role') && f in mem && f !in Held(free, role)
    ensures mem'.Keys == mem.Keys && f in mem' && mem'[f] == mem[f]
  {
  }

  /** The first free frame is taken and written. */
  lemma GrownPop(mem: Memory, free: seq<nat>, role: map<nat, Role>, f: nat, page: Page)
    requires 0 < |free| && f == free[0] && f in mem && f !in role
    ensures Grown(mem, free, role, mem[f := page], free[1..], role) && Held(free[1..], role) <= Held(free, role)
  {
    assert f in free;
    assert forall g :: g in free[1..] ==> g in free;
  }

  lemma GrownTwice(mem0: Memory, free0: seq<nat>, role0: map<nat, Role>, mem1: Memory, free1: seq<nat>, role1: map<nat, Role>,
                   mem2: Memory, free2: seq<nat>, role2: map<nat, Role>)
    requires Grown(mem0, free0, role0, mem1, free1, role1) && Grown(mem1, free1, role1, mem2, free2, role2)
    requires Held(free1, role1) <= Held(free0, role0)
    ensures Grown(mem0, free0, role0, mem2, free2, role2)
  {
    hide Held;
  }

  // ----- installing a table and a page-table word

  /** A fresh, zeroed table `t` for directory entry `i`. */
  lemma AddTable(mem: Memory, free: seq<nat>, d: nat, role: map<nat, Role>, i: nat, mem': Memory)
    requires Tree(mem, free, d, role) && i < NENTRIES && !Present(mem[d][i]) && 0 < |free|
    requires var t := free[0];
      mem' == mem[t := seq(NENTRIES, _ => 0)][d := mem[d][i := Pte(t, PTE_W + PTE_U)]]
    ensures Tree(mem', free[1..], d, role[free[0] := Table(i)])
    ensures forall pn :: 0 <= pn < NPAGES ==> Lookup(mem', d, pn) == Lookup(mem, d, pn)
  {
    var t, role' := free[0], role[free[0] := Table(i)];
    assert t in free && t !in role && t != d;
    forall j | 0 <= j < NENTRIES && j != i ensures mem'[d][j] == mem[d][j] && EntryOk(mem, d, role, j) {
    }
    forall pn | 0 <= pn < NPAGES
      ensures if Pdx(pn) == i then !Present(Lookup(mem, d, pn)) && Lookup(mem', d, pn) == 0 else Lookup(mem', d, pn) == Lookup(mem, d, pn)
    {
      if Pdx(pn) != i {
        assert EntryOk(mem, d, role, Pdx(pn));
      }
    }
    AddTableTree(mem, free, d, role, i, mem');
  }

  lemma AddTableTree(mem: Memory, free: seq<nat>, d: nat, role: map<nat, Role>, i: nat, mem': Memory)
    requires Tree(mem, free, d, role) && i < NENTRIES && !Present(mem[d][i]) && 0 < |free|
    requires var t := free[0];
      mem' == mem[t := seq(NENTRIES, _ => 0)][d := mem[d][i := Pte(t, PTE_W + PTE_U)]]
    requires forall pn :: 0 <= pn < NPAGES ==>
      if Pdx(pn) == i then !Present(Lookup(mem, d, pn)) && Lookup(mem', d, pn) == 0 else Lookup(mem', d, pn) == Lookup(mem, d, pn)
    ensures Tree(mem', free[1..], d, role[free[0] := Table(i)])
  {
    hide Lookup;
    var t, role', free' := free[0], role[free[0] := Table(i)], free[1..];
    FlagBits(PTE_W + PTE_U, t);
    assert t in free && t !in role && t != d;
    assert forall f :: f in free' ==> f in free && f != t;
    forall j | 0 <= j < NENTRIES ensures EntryOk(mem', d, role', j) {
      assert EntryOk(mem, d, role, j);
    }
    forall pn | 0 <= pn < UPAGES ensures UserOk(mem', d, role', pn) {
      assert UserOk(mem, d, role, pn);
    }
    forall f | f in role' ensures RoleOk(mem', d, role', f) {
      if f != t {
        assert RoleOk(mem, d, role, f);
      }
    }
  }

  /** The table that serves page `pn`. */
  function TableOf(mem: Memory, d: nat, pn: nat): (t: nat)
    requires pn < NPAGES && d in mem && |mem[d]| == NENTRIES
  {
    FrameOf(mem[d][Pdx(pn)])
  }

  ghost predicate HasTable(mem: Memory, d: nat, pn: nat) {
    && pn < NPAGES && d in mem && |mem[d]| == NENTRIES && Present(mem[d][Pdx(pn)])
    && TableOf(mem, d, pn) in mem && |mem[TableOf(mem, d, pn)]| == NENTRIES
  }

  /** The memory with word `w` for page `pn`. */
  function WithWord(mem: Memory, d: nat, pn: nat, w: nat): (r: Memory)
    requires HasTable(mem, d, pn)
    ensures r.Keys == mem.Keys
  {
    var t := TableOf(mem, d, pn);
    var page: Page := mem[t];
    var page': Page := page[Ptx(pn) := w];
    mem[t := page']
  }

  /** Writing one page-table word changes the translation of that page only. */
  lemma WithWordLookup(mem: Memory, free: seq<nat>, d: nat, role: map<nat, Role>, pn: nat, w: nat, q: nat)
    requires Tree(mem, free, d, role) && HasTable(mem, d, pn) && q < NPAGES
    ensures Lookup(WithWord(mem, d, pn, w), d, q) == if q == pn then w else Lookup(mem, d, q)
  {
    assert EntryOk(mem, d, role, Pdx(pn)) && EntryOk(mem, d, role, Pdx(q));
    SamePage(pn, q);
  }

  lemma SamePage(p: nat, q: nat)
    ensures Pdx(p) == Pdx(q) && Ptx(p) == Ptx(q) ==> p == q
  {
  }

  /** The table of a page is in use as that table, so it is neither the directory nor a user page. */
  lemma TableRole(mem: Memory, free: seq<nat>, d: nat, role: map<nat, Role>, pn: nat)
    requires Tree(mem, free, d, role) && pn < NPAGES && Present(mem[d][Pdx(pn)])
    ensures HasTable(mem, d, pn)
    ensures TableOf(mem, d, pn) in role && role[TableOf(mem, d, pn)] == Table(Pdx(pn)) && TableOf(mem, d, pn) != d
  {
    assert EntryOk(mem, d, role, Pdx(pn));
  }

  /** A word for a page above KERNBASE. */
  lemma SetKernel(mem: Memory, free: seq<nat>, d: nat, role: map<nat, Role>, pn: nat, w: nat)
    requires Tree(mem, free, d, role) && UPAGES <= pn < NPAGES && HasTable(mem, d, pn)
    ensures Tree(WithWord(mem, d, pn, w), free, d, role)
  {
    hide Lookup, WithWord;
    TableRole(mem, free, d, role, pn);
    WordTree(mem, free, d, role, pn, w);
    var mem' := WithWord(mem, d, pn, w);
    forall q | 0 <= q < UPAGES ensures UserOk(mem', d, role, q) {
      assert UserOk(mem, d, role, q);
      WithWordLookup(mem, free, d, role, pn, w, q);
    }
    forall f | f in role ensures RoleOk(mem', d, role, f) {
      assert RoleOk(mem, d, role, f);
      if role[f].User? { WithWordLookup(mem, free, d, role, pn, w, role[f].pn); }
    }
  }

  /** The parts of Tree that do not speak about user pages. */
  lemma WordTree(mem: Memory, free: seq<nat>, d: nat, role: map<nat, Role>, pn: nat, w: nat)
    requires Tree(mem, free, d, role) && pn < NPAGES && HasTable(mem, d, pn)
    ensures var mem' := WithWord(mem, d, pn, w);
      && Pool(mem', free) && mem'[d] == mem[d]
      && (forall i :: 0 <= i < NENTRIES ==> EntryOk(mem', d, role, i))
  {
    TableRole(mem, free, d, role, pn);
    var mem' := WithWord(mem, d, pn, w);
    forall i | 0 <= i < NENTRIES ensures EntryOk(mem', d, role, i) {
      assert EntryOk(mem, d, role, i);
    }
  }

  /** Frame `f`, which is neither free nor in use, becomes user page `pn`. */
  lemma SetUser(mem: Memory, free: seq<nat>, d: nat, role: map<nat, Role>, pn: nat, w: nat, f: nat)
    requires Tree(mem, free, d, role) && pn < UPAGES && HasTable(mem, d, pn) && !Present(Lookup(mem, d, pn))
    requires Present(w) && FrameOf(w) == f && f in mem && f !in free && f !in role && f != 0
    ensures Tree(WithWord(mem, d, pn, w), free, d, role[f := User(pn)])
  {
    hide Lookup, WithWord;
    TableRole(mem, free, d, role, pn);
    WordTree(mem, free, d, role, pn, w);
    var mem', role' := WithWord(mem, d, pn, w), role[f := User(pn)];
    forall i | 0 <= i < NENTRIES ensures EntryOk(mem', d, role', i) {
      assert EntryOk(mem', d, role, i);
    }
    forall q | 0 <= q < UPAGES ensures UserOk(mem', d, role', q) {
      assert UserOk(mem, d, role, q);
      WithWordLookup(mem, free, d, role, pn, w, q);
    }
    forall g | g in role' ensures RoleOk(mem', d, role', g) {
      if g == f {
        WithWordLookup(mem, free, d, role, pn, w, pn);
      } else {
        assert RoleOk(mem, d, role, g);
        if role[g].User? { WithWordLookup(mem, free, d, role, pn, w, role[g].pn); }
      }
    }
  }

  /** User page `pn` is unmapped; its frame, given back, is filled with junk. */
  lemma ClearUser(mem: Memory, free: seq<nat>, d: nat, role: map<nat, Role>, pn: nat, f: nat, mem': Memory)
    requires Tree(mem, free, d, role) && pn < UPAGES && HasTable(mem, d, pn) && Present(Lookup(mem, d, pn))
    requires f == FrameOf(Lookup(mem, d, pn))
    requires mem' == WithWord(mem, d, pn, 0)[f := seq(NENTRIES, _ => JUNK)]
    ensures f in role && Tree(mem', [f] + free, d, role - {f})
    ensures forall q :: 0 <= q < NPAGES ==> Lookup(mem', d, q) == if q == pn then 0 else Lookup(mem, d, q)
  {
    hide Lookup, WithWord;
    TableRole(mem, free, d, role, pn);
    assert UserOk(mem, d, role, pn);
    WordTree(mem, free, d, role, pn, 0);
    var mem1, role' := WithWord(mem, d, pn, 0), role - {f};
    forall q | 0 <= q < NPAGES ensures Lookup(mem', d, q) == if q == pn then 0 else Lookup(mem, d, q) {
      WithWordLookup(mem, free, d, role, pn, 0, q);
      assert EntryOk(mem1, d, role, Pdx(q));
      JunkLookup(mem1, d, role, q, f, mem');
    }
    assert f != d;
    forall i | 0 <= i < NENTRIES ensures EntryOk(mem', d, role', i) {
      assert EntryOk(mem1, d, role, i);
    }
    forall q | 0 <= q < UPAGES ensures UserOk(mem', d, role', q) {
      assert UserOk(mem, d, role, q);
    }
    forall g | g in role' ensures RoleOk(mem', d, role', g) {
      assert RoleOk(mem, d, role, g);
    }
  }

  /** Overwriting a user page changes no translation. */
  lemma JunkLookup(mem: Memory, d: nat, role: map<nat, Role>, q: nat, f: nat, mem': Memory)
    requires q < NPAGES && d in mem && |mem[d]| == NENTRIES && EntryOk(mem, d, role, Pdx(q))
    requires f in role && role[f].User? && f != d && mem'.Keys == mem.Keys
    requires forall g :: g in mem && g != f ==> mem'[g] == mem[g]
    ensures Lookup(mem', d, q) == Lookup(mem, d, q)
  {
  }

  // ----- the operations

  datatype MapResult = Mapped | NoMemory | Remap
  datatype CopyResult = Copied(d: nat) | OutOfMemory | CopyPanic

  /** The frames that are free or in hand. */
  ghost function Held(free: seq<nat>, role: map<nat, Role>): (r: set<nat>) {
    FreeSet(free) + role.Keys
  }

  class Machine {
    var mem: Memory
    var free: seq<nat>
    ghost var role: map<nat, Role>

    /** kalloc. */
    method Kalloc() returns (r: Option<nat>)
      requires Pool(mem, free)
      modifies this`free
      ensures r.None? <==> old(free) == []
      ensures r.None? ==> free == old(free)
      ensures r.Some? ==> r.value == old(free)[0] && free == old(free)[1..] && r.value in mem && r.value !in free && r.value != 0 && Pool(mem, free)
    {
      if free == [] {
        return None;
      }
      var f := free[0];
      assert f in free;
      free := free[1..];
      assert forall g :: g in free ==> g in old(free);
      return Some(f);
    }

    /** walkpgdir: false is the null result. */
    method Walk(d: nat, pn: nat, alloc: bool) returns (found: bool)
      requires Tree(mem, free, d, role) && pn < NPAGES
      modifies this
      ensures Tree(mem, free, d, role) && Grown(old(mem), old(free), old(role), mem, free, role)
      ensures Held(free, role) == Held(old(free), old(role))
      ensures found ==> HasTable(mem, d, pn) && forall q :: 0 <= q < NPAGES ==> Lookup(mem, d, q) == Lookup(old(mem), d, q)
      ensures found ==> Widened(old(mem), mem, d, Pdx(pn), Pdx(pn))
      ensures !found ==> mem == old(mem) && free == old(free) && role == old(role) && !Present(mem[d][Pdx(pn)]) && (alloc ==> free == [])
      ensures old(Present(mem[d][Pdx(pn)])) ==> found && mem == old(mem) && free == old(free) && role == old(role)
    {
      hide Lookup;
      if Present(mem[d][Pdx(pn)]) {
        TableRole(mem, free, d, role, pn);
        return true;
      }
      if !alloc {
        return false;
      }
      ghost var free0 := free;
      var t := Kalloc();
      if t.None? {
        return false;
      }
      assert t.value in free0;
      AddTable(mem, free0, d, role, Pdx(pn), mem[t.value := seq(NENTRIES, _ => 0)][d := mem[d][Pdx(pn) := Pte(t.value, PTE_W + PTE_U)]]);
      mem := mem[t.value := seq(NENTRIES, _ => 0)];
      var dir: Page := mem[d];
      var dir': Page := dir[Pdx(pn) := Pte(t.value, PTE_W + PTE_U)];
      mem := mem[d := dir'];
      role := role[t.value := Table(Pdx(pn))];
      PopHeld(free0, old(role), Table(Pdx(pn)));
      TableRole(mem, free, d, role, pn);
      return true;
    }

    /** One round of the loop of mappages, for page `a` and frame `fr`. */
    method MapPage(d: nat, a: nat, fr: nat, perm: nat, ghost f: Option<nat>) returns (r: MapResult)
      requires Tree(mem, free, d, role) && a < NPAGES && perm < PGSIZE
      requires f.None? ==> UPAGES <= a
      requires f.Some? ==> a < UPAGES && fr == f.value && f.value in mem && f.value !in free && f.value !in role && f.value != 0
      modifies this
      ensures Tree(mem, free, d, role) && Grown(old(mem), old(free), old(role), mem, free, role)
      ensures r.Mapped? ==>
        && !Present(Lookup(old(mem), d, a))
        && (forall q :: 0 <= q < NPAGES ==> Lookup(mem, d, q) == if q == a then Pte(fr, perm) else Lookup(old(mem), d, q))
        && Held(free, role) == Held(old(free), old(role)) + (if f.Some? then {f.value} else {})
        && (f.Some? ==> f.value in role && role[f.value] == User(a))
      ensures !r.Mapped? ==> Held(free, role) == Held(old(free), old(role))
      ensures r.Mapped? ==> Widened(old(mem), mem, d, Pdx(a), Pdx(a))
      ensures r.NoMemory? ==> free == [] && mem == old(mem) && free == old(free) && role == old(role) && !Present(mem[d][Pdx(a)])
      ensures r.Remap? ==> Present(Lookup(old(mem), d, a))
    {
      hide Lookup, Tree, WithWord, Pte, Widened, Grown;
      ghost var mem0, role0 := mem, role;
      RolesInMemory(mem, free, d, role);
      DirectoryPage(mem, free, d, role);
      var found := Walk(d, a, true);
      if !found {
        return NoMemory;
      }
      if Present(Lookup(mem, d, a)) {
        return Remap;
      }
      NewRoles(old(free), role0, free, role);
      GrownKeys(mem0, old(free), role0, mem, free, role);
      if f.None? {
        SetKernel(mem, free, d, role, a, Pte(fr, perm));
      } else {
        PteFacts(fr, perm);
        SetUser(mem, free, d, role, a, Pte(fr, perm), f.value);
      }
      forall q | 0 <= q < NPAGES ensures Lookup(WithWord(mem, d, a, Pte(fr, perm)), d, q) == if q == a then Pte(fr, perm) else Lookup(mem, d, q) {
        WithWordLookup(mem, free, d, role, a, Pte(fr, perm), q);
      }
      WordTree(mem, free, d, role, a, Pte(fr, perm));
      GrownWord(mem0, old(free), role0, mem, free, role, d, a, Pte(fr, perm), if f.Some? then role[f.value := User(a)] else role);
      WidenedSame(mem0, mem, WithWord(mem, d, a, Pte(fr, perm)), d, Pdx(a), Pdx(a));
      mem := WithWord(mem, d, a, Pte(fr, perm));
      if f.Some? {
        AddHeld(free, role, f.value, User(a));
        role := role[f.value := User(a)];
      }
      return Mapped;
    }

    /**
      mappages.  Either the range lies above KERNBASE, or it is one user page whose frame
      `f` has been taken from the free list for it.  Remap is the panic; it happens just when
      a page of the range was already mapped.
      */
    method Mappages(d: nat, va: nat, size: nat, pa: nat, perm: nat, ghost f: Option<nat>) returns (r: MapResult)
      requires Tree(mem, free, d, role) && 0 < size && va + size <= WORD && pa % PGSIZE == 0 && perm < PGSIZE
      requires f.None? ==> KERNBASE <= va
      requires f.Some? ==>
        && va % PGSIZE == 0 && va < KERNBASE && size == PGSIZE && pa == f.value * PGSIZE
        && f.value in mem && f.value !in free && f.value !in role && f.value != 0
      modifies this
      ensures Tree(mem, free, d, role) && Grown(old(mem), old(free), old(role), mem, free, role)
      ensures r.Mapped? ==>
        && RangeMapped(old(mem), mem, d, va / PGSIZE, (va + size - 1) / PGSIZE, pa / PGSIZE, perm)
        && Held(free, role) == Held(old(free), old(role)) + (if f.Some? then {f.value} else {})
        && (f.Some? ==> f.value in role && role[f.value] == User(va / PGSIZE))
      ensures !r.Mapped? ==> Held(free, role) == Held(old(free), old(role))
      ensures r.Mapped? ==> Widened(old(mem), mem, d, Pdx(va / PGSIZE), Pdx((va + size - 1) / PGSIZE))
      ensures r.NoMemory? ==> free == [] && Stuck(old(mem), mem, d, va / PGSIZE, (va + size - 1) / PGSIZE)
      ensures r.NoMemory? && f.Some? ==> free == old(free) && role == old(role) && mem == old(mem)
      ensures r.Remap? ==> exists q :: va / PGSIZE <= q <= (va + size - 1) / PGSIZE && Present(Lookup(old(mem), d, q))
    {
      hide Lookup, Tree, Held, Pte, Widened, Stuck, Grown;
      ghost var mem0, free0, role0 := mem, free, role;
      var first, last := va / PGSIZE, (va + size - 1) / PGSIZE;
      var a, fr := first, pa / PGSIZE;
      PageRange(va, size);
      GrownSelf(mem, free, role);
      RolesInMemory(mem, free, d, role);
      DirectoryPage(mem, free, d, role);
      while true
        invariant first <= a <= last < NPAGES && fr == pa / PGSIZE + (a - first) && (f.Some? ==> a == first == last)
        invariant Tree(mem, free, d, role) && Grown(mem0, free0, role0, mem, free, role)
        invariant Held(free, role) == Held(free0, role0) && (f.Some? ==> role == role0 && mem == mem0 && free == free0)
        invariant d in mem0 && |mem0[d]| == NENTRIES && if a == first then mem0 == mem else Widened(mem0, mem, d, Pdx(first), Pdx(a - 1))
        invariant forall q :: 0 <= q < NPAGES ==>
          Lookup(mem, d, q) == if first <= q < a then Pte(pa / PGSIZE + (q - first), perm) else Lookup(mem0, d, q)
        decreases last - a
      {
        ghost var mem1, free1, role1 := mem, free, role;
        r := MapPage(d, a, fr, perm, f);
        DirectoryPage(mem, free, d, role);
        GrownTwice(mem0, free0, role0, mem1, free1, role1, mem, free, role);
        if r.NoMemory? {
          NowStuck(mem0, mem, d, first, a, last);
        } else if r.Mapped? {
          WidenedMore(mem0, mem1, mem, d, first, a);
        }
        if r != Mapped || a == last {
          return;
        }
        a := a + 1;
        fr := fr + 1;
      }
    }

    /**
      setupkvm.  `data` is the page-aligned end of the kernel's text.  It takes 65 frames: the
      directory and 64 tables.  With fewer, it fails and gives back none of those it took.
      */
    method Setupkvm(data: nat) returns (r: Option<nat>)
      requires Pool(mem, free) && role == map[]
      requires data % PGSIZE == 0 && KERNLINK < data < KERNBASE + PHYSTOP
      modifies this
      ensures Pool(mem, free) && mem.Keys == old(mem.Keys) && (forall g :: g in free ==> g in old(free))
      ensures forall g :: g in old(mem) && g !in old(free) ==> mem[g] == old(mem)[g]
      ensures r.None? <==> |old(free)| < Frames(0)
      ensures r.None? ==> free == []
      ensures r.Some? ==>
        && Tree(mem, free, r.value, role) && Held(free, role) == FreeSet(old(free))
        && (forall pn :: 0 <= pn < UPAGES ==> Lookup(mem, r.value, pn) == 0)
        && (forall g :: g in role ==> !role[g].User?)
        && (forall va :: 0 <= va < WORD ==> KernelSpace(data, va, WordAt(mem, r.value, va)))
        && (forall q :: 0 <= q < NPAGES ==> Lookup(mem, r.value, q) == KernelWord(data, q, NKMAP))
        && TablesAre(mem, r.value, 0)
    {
      hide Lookup, Tree, Held, KernelWord, Pte, Kmap, Grown, Widened, Stuck, KernelUpTo, TablesAre, KernelSpace, Pool, WordAt, FreeSet,
        RangeMapped, Pdx;
      ghost var free0, mem0 := free, mem;
      var k := Kalloc();
      if k.None? {
        return None;
      }
      var d := k.value;
      assert d in free0;
      NewDirectory(mem, free0, d, mem[d := seq(NENTRIES, _ => 0)]);
      mem := mem[d := seq(NENTRIES, _ => 0)];
      role := map[d := Directory];
      StartHeld(free0, d);
      KernelStart(mem, d, data);
      var k' := 0;
      while k' < NKMAP
        invariant 0 <= k' <= NKMAP && Tree(mem, free, d, role) && mem.Keys == mem0.Keys
        invariant Held(free, role) == FreeSet(free0) && (forall g :: g in free ==> g in free0)
        invariant forall g :: g in mem0 && g !in free0 ==> mem[g] == mem0[g]
        invariant KernelUpTo(mem, d, data, k')
      {
        var ok := MapRegion(d, data, k', mem0, free0);
        if !ok {
          TreePool(mem, free, d, role);
          return None;
        }
        k' := k' + 1;
      }
      TreePool(mem, free, d, role);
      KernelDone(mem, d, data);
      NoUserPages(mem, free, d, role);
      FramesTaken(mem0, free0, mem, free, d, role, 0);
      return Some(d);
    }

    /** One line of the kernel's map. */
    method MapRegion(d: nat, data: nat, k: nat, ghost mem0: Memory, ghost free0: seq<nat>) returns (ok: bool)
      requires data % PGSIZE == 0 && KERNLINK < data < KERNBASE + PHYSTOP && k < NKMAP
      requires Tree(mem, free, d, role) && Pool(mem0, free0) && Held(free, role) == FreeSet(free0) && KernelUpTo(mem, d, data, k)
      requires mem.Keys == mem0.Keys && forall g :: g in mem0 && g !in free0 ==> mem[g] == mem0[g]
      modifies this
      ensures Tree(mem, free, d, role) && Held(free, role) == FreeSet(free0) && (forall g :: g in free ==> g in old(free))
      ensures mem.Keys == mem0.Keys && forall g :: g in mem0 && g !in free0 ==> mem[g] == mem0[g]
      ensures ok ==> KernelUpTo(mem, d, data, k + 1)
      ensures !ok ==> free == [] && |free0| < Frames(0)
    {
      hide Lookup, Tree, Held, KernelWord, Pte, Kmap, Grown, Widened, Stuck, KernelUpTo, Pool, FreeSet, RangeMapped, Pdx;
      var reg := Kmap(data, k);
      RegionFits(data, k);
      ghost var mem1, free1, role1 := mem, free, role;
      var m := Mappages(d, reg.virt, reg.size, reg.phys, reg.perm, None);
      GrownOutside(mem0, free0, mem1, free1, role1, mem, free, role);
      KernelUnmapped(mem1, d, data, k);
      assert m != Remap;    // the panic is unreachable
      if m != Mapped {
        TooFew(mem0, free0, mem1, mem, free, d, role, data, k);
        return false;
      }
      KernelNext(mem1, mem, d, data, k);
      return true;
    }

    /** The body of deallocuvm's loop for a mapped page: kfree, then clear the entry. */
    method FreePage(d: nat, a: nat)
      requires Tree(mem, free, d, role) && a < UPAGES && Present(mem[d][Pdx(a)]) && Present(Lookup(mem, d, a))
      modifies this
      ensures Tree(mem, free, d, role) && mem.Keys == old(mem.Keys) && mem[d] == old(mem)[d]
      ensures Held(free, role) == old(Held(free, role)) && role == old(role) - {FrameOf(Lookup(old(mem), d, a))}
      ensures forall g :: g in old(mem) && g !in old(role) ==> mem[g] == old(mem)[g]
      ensures forall q :: 0 <= q < NPAGES ==> Lookup(mem, d, q) == if q == a then 0 else Lookup(old(mem), d, q)
    {
      hide Lookup, Tree, Held, WithWord;
      TableRole(mem, free, d, role, a);
      var f := FrameOf(Lookup(mem, d, a));
      ClearUser(mem, free, d, role, a, f, WithWord(mem, d, a, 0)[f := seq(NENTRIES, _ => JUNK)]);
      RolesInMemory(mem, free, d, role);
      WordFrame(mem, free, d, role, a, 0);
      WordTree(mem, free, d, role, a, 0);
      PushHeld(free, role, f);
      UserFrame(mem, free, d, role, a);
      assert f != 0;    // the panic is unreachable
      mem := WithWord(mem, d, a, 0);
      mem := mem[f := seq(NENTRIES, _ => JUNK)];
      free := [f] + free;
      role := role - {f};
    }

    /** deallocuvm: returns the new size. */
    method Deallocuvm(d: nat, oldsz: nat, newsz: nat) returns (sz: nat)
      requires Tree(mem, free, d, role) && oldsz <= KERNBASE
      modifies this
      ensures sz == if newsz >= oldsz then oldsz else newsz
      ensures Tree(mem, free, d, role) && mem.Keys == old(mem.Keys) && mem[d] == old(mem)[d]
      ensures Held(free, role) == old(Held(free, role))
      ensures forall g :: g in role ==> g in old(role) && role[g] == old(role)[g]
      ensures forall g :: g in old(mem) && g !in old(role) ==> mem[g] == old(mem)[g]
      // the mapped pages of the range are unmapped, all but those the walk jumps over
      ensures forall q :: 0 <= q < NPAGES ==>
        Lookup(mem, d, q) == if PagesUp(newsz) <= q < PagesUp(oldsz) && Present(Lookup(old(mem), d, q)) && !Jumped(old(mem)[d], PagesUp(newsz), q) then 0
                             else Lookup(old(mem), d, q)
    {
      hide Lookup, Tree, Held, WithWord, Jumped, AllMissing;
      DirectoryPage(mem, free, d, role);
      if newsz >= oldsz {
        RangeOrder(oldsz, newsz);
        return oldsz;
      }
      ghost var mem0, role0, from, to := mem, role, PagesUp(newsz), PagesUp(oldsz);
      ghost var dir: Page := mem[d];
      var a := PagesUp(newsz);
      UserRange(oldsz);
      UserRange(newsz);
      WalkStart(dir, from);
      while a * PGSIZE < oldsz
        invariant from <= a && a <= UPAGES + NENTRIES && Tree(mem, free, d, role) && mem.Keys == mem0.Keys && d in mem && mem[d] == dir
        invariant Held(free, role) == old(Held(free, role))
        invariant forall g :: g in role ==> g in role0 && role[g] == role0[g]
        invariant forall g :: g in mem0 && g !in role0 ==> mem[g] == mem0[g]
        invariant Walked(dir, from, a)
        invariant forall q :: 0 <= q < NPAGES ==>
          Lookup(mem, d, q) == if from <= q < a && q < to && Present(Lookup(mem0, d, q)) && !Jumped(dir, from, q) then 0 else Lookup(mem0, d, q)
        decreases oldsz - a * PGSIZE
      {
        InRange(a, oldsz);
        if !Present(mem[d][Pdx(a)]) {
          forall q | a <= q < a + NENTRIES && q < to ensures Jumped(dir, from, q) || !Present(Lookup(mem0, d, q)) {
            WalkJumps(mem0, d, from, a, q);
          }
          WalkSkip(dir, from, a);
          a := a + NENTRIES;
        } else {
          TableRole(mem, free, d, role, a);
          WalkVisits(dir, from, a);
          if Present(Lookup(mem, d, a)) {
            FreePage(d, a);
          }
          WalkStep(dir, from, a);
          a := a + 1;
        }
      }
      RangeEnd(a, oldsz);
      return newsz;
    }

    /** freevm: every frame of the directory goes back to the free list. */
    method Freevm(d: nat)
      requires Tree(mem, free, d, role)
      modifies this
      ensures Pool(mem, free) && role == map[] && mem.Keys == old(mem.Keys)
      ensures FreeSet(free) == old(Held(free, role))
      ensures forall g :: g in old(mem) && g !in old(role) ==> mem[g] == old(mem)[g]
    {
      hide Lookup, Tree, Held, Doomed, Pool;
      ghost var mem0, role0 := mem, role;
      RolesInMemory(mem, free, d, role);
      DirectoryPage(mem, free, d, role);
      var _ := Deallocuvm(d, KERNBASE, 0);
      AllUnmapped(old(mem), mem, d);
      NoUserPages(mem, free, d, role);
      Condemn(mem, free, d, role);
      var i := 0;
      while i < NENTRIES
        invariant 0 <= i <= NENTRIES && Doomed(mem, free, d, role, i) && mem.Keys == mem0.Keys
        invariant Held(free, role) == old(Held(free, role))
        invariant forall g :: g in role ==> g in role0
        invariant forall g :: g in mem0 && g !in role0 ==> mem[g] == mem0[g]
      {
        DoomedPage(mem, free, d, role, i);
        if Present(mem[d][i]) {
          var t := FrameOf(mem[d][i]);
          DropTable(mem, free, d, role, i);
          PushHeld(free, role, t);
          mem := mem[t := seq(NENTRIES, _ => JUNK)];
          free := [t] + free;
          role := role - {t};
        } else {
          SkipTable(mem, free, d, role, i);
        }
        i := i + 1;
      }
      DropDirectory(mem, free, d, role);
      PushHeld(free, role, d);
      mem := mem[d := seq(NENTRIES, _ => JUNK)];
      free := [d] + free;
      role := map[];
      NothingHeld(free);
    }

    /**
      The body of copyuvm's loop for page `i`, whose word in the parent is `pte`.  When the
      last free frame is taken for the page and none is left for its table, that frame is lost.
      */
    method CopyPage(d: nat, i: nat, pte: nat) returns (r: MapResult)
      requires Tree(mem, free, d, role) && i < UPAGES && Lookup(mem, d, i) == 0
      requires Present(pte) && FrameOf(pte) in mem && FrameOf(pte) !in Held(free, role)
      modifies this
      ensures Tree(mem, free, d, role) && r != Remap && Grown(old(mem), old(free), old(role), mem, free, role)
      ensures forall g :: g in Held(free, role) ==> g in Held(old(free), old(role))
      ensures r.NoMemory? ==>
        && role == old(role) && free == []
        && (old(free) == [] || (|old(free)| == 1 && !Present(old(mem)[d][Pdx(i)])))
      ensures r.Mapped? ==>
        && Held(free, role) == Held(old(free), old(role)) && Widened(old(mem), mem, d, Pdx(i), Pdx(i))
        && (forall q :: 0 <= q < NPAGES && q != i ==> Lookup(mem, d, q) == Lookup(old(mem), d, q))
        && var w := Lookup(mem, d, i);
        && Present(w) && Flags(w) == Flags(pte) && FrameOf(w) in old(free)
        && FrameOf(w) in role && role[FrameOf(w)] == User(i) && FrameOf(w) in mem && mem[FrameOf(w)] == old(mem)[FrameOf(pte)]
    {
      hide Lookup, Tree, Held, Pool, Pte, Widened, Stuck, Grown;
      ghost var mem0, free0, role0 := mem, free, role;
      TreePool(mem, free, d, role);
      RolesInMemory(mem, free, d, role);
      GrownSelf(mem, free, role);
      DirectoryPage(mem, free, d, role);
      var k := Kalloc();
      if k.None? {
        return NoMemory;
      }
      var f := k.value;
      TreeTail(mem, free0, d, role);
      TreeOutside(mem, free, d, role, f, mem[FrameOf(pte)]);
      GrownPop(mem, free0, role, f, mem[FrameOf(pte)]);
      mem := mem[f := mem[FrameOf(pte)]];
      ghost var mem1 := mem;
      r := Mappages(d, i * PGSIZE, PGSIZE, f * PGSIZE, Flags(pte), Some(f));
      GrownTwice(mem0, free0, role0, mem1, free0[1..], role0, mem, free, role);
      GrownAt(mem1, free0[1..], role0, mem, free, role, f);
      if r.Mapped? {
        WidenedFrom(mem0, mem1, mem, d, Pdx(i), Pdx(i));
      } else if r.NoMemory? {
        StuckAt(mem1, mem, d, i);
      }
    }

    /**
      copyuvm.  CopyPanic stands for its two panics: the parent lacks a table or a page.  Which
      outcome it is depends on the number of free frames and on the first page that the parent
      lacks.
      */
    method Copyuvm(parent: nat, sz: nat, data: nat) returns (r: CopyResult)
      requires Pool(mem, free) && role == map[] && sz <= KERNBASE
      requires data % PGSIZE == 0 && KERNLINK < data < KERNBASE + PHYSTOP
      requires Owned(mem, free, parent, PagesUp(sz))
      modifies this
      ensures mem.Keys == old(mem.Keys) && (forall g :: g in old(mem) && g !in old(free) ==> mem[g] == old(mem)[g])
      ensures r.OutOfMemory? <==> |old(free)| < Frames(Intact(old(mem), parent, PagesUp(sz)))
      ensures r.CopyPanic? <==> !r.OutOfMemory? && Intact(old(mem), parent, PagesUp(sz)) < PagesUp(sz)
      ensures r.Copied? ==>
        && Tree(mem, free, r.d, role) && Held(free, role) == FreeSet(old(free)) && (forall g :: g in role ==> g in old(free))
        && |free| == |old(free)| - Frames(PagesUp(sz))
        && (forall pn :: 0 <= pn < PagesUp(sz) ==> CopyOf(old(mem), parent, mem, r.d, role, pn))
        && (forall va :: PagesUp(sz) * PGSIZE <= va < WORD ==> KernelSpace(data, va, WordAt(mem, r.d, va)))
        // so deallocuvm on the child jumps over no page, wherever it starts
        && (forall from, q :: 0 <= from && 0 <= q < PagesUp(sz) ==> !Jumped(mem[r.d], from, q))
      ensures r.CopyPanic? ==> exists pn :: 0 <= pn < PagesUp(sz) && !Present(Lookup(old(mem), parent, pn))
      ensures r.OutOfMemory? ==> Pool(mem, free) && (forall g :: g in free ==> g in old(free)) && |free| == |old(free)| - Lost(|old(free)|)
    {
      hide Lookup, Tree, Held, KernelWord, Pte, CopyOf, Owned, Pool, Jumped, Grown, Widened, TablesAre, KernelSpace, Intact, Frames;
      ghost var mem0, free0, np := mem, free, PagesUp(sz);
      UserRange(sz);
      var k := Setupkvm(data);
      if k.None? {
        NoDirectory(mem0, parent, np, free0);
        return OutOfMemory;
      }
      var d := k.value;
      var i := 0;
      while i * PGSIZE < sz
        invariant 0 <= i <= np && Tree(mem, free, d, role) && mem.Keys == mem0.Keys && Held(free, role) == FreeSet(free0)
        invariant forall g :: g in mem0 && g !in free0 ==> mem[g] == mem0[g]
        invariant forall pn :: 0 <= pn < i ==> CopyOf(mem0, parent, mem, d, role, pn)
        invariant forall q :: i <= q < NPAGES ==> Lookup(mem, d, q) == KernelWord(data, q, NKMAP)
        invariant TablesAre(mem, d, i)
      {
        InRange(i, sz);
        SameLookup(mem0, free0, mem, parent, np, i);
        var pte := Lookup(mem, parent, i);
        CopiedSoFar(mem0, free0, mem, free, parent, d, role, data, i, np);
        if !Present(pte) {
          return CopyPanic;
        }
        UserOutside(data, i, NKMAP);
        HeldFree(free0, free, role);
        RolesHeld(free0, free, role);
        ghost var mem1, free1, role1 := mem, free, role;
        var m := CopyPage(d, i, pte);
        GrownOutside(mem0, free0, mem1, free1, role1, mem, free, role);
        if m != Mapped {
          RolesHeld(free0, free, role);
          LastFrame(mem0, parent, np, i, |free0|, |free1|, |role|, mem1, d);
          Freevm(d);
          FreedAll(mem, free, role1);
          return OutOfMemory;
        }
        forall pn | 0 <= pn < i ensures CopyOf(mem0, parent, mem, d, role, pn) {
          GrownUsers(mem1, free1, role1, mem, free, role);
          KeepCopy(mem0, parent, mem1, role1, mem, d, role, pn);
        }
        NewCopy(mem0, parent, mem, d, role, i, pte);
        TablesNext(mem1, mem, d, i);
        i := i + 1;
      }
      RangeEnd(i, sz);
      RolesHeld(free0, free, role);
      DirectoryPage(mem, free, d, role);
      CopiedSoFar(mem0, free0, mem, free, parent, d, role, data, np, np);
      KernelMapped(mem, d, data, np);
      forall from, q | 0 <= from && 0 <= q < np ensures !Jumped(mem[d], from, q) {
        CopiesPresent(mem0, parent, mem, d, role, np);
        NoHole(mem, d, np, from, q);
      }
      return Copied(d);
    }

    /** A child that is forked and reaped: copyuvm, then freevm.  The pool has exactly the frames it had. */
    method CopyAndFree(parent: nat, sz: nat, data: nat) returns (r: CopyResult)
      requires Pool(mem, free) && role == map[] && sz <= KERNBASE
      requires data % PGSIZE == 0 && KERNLINK < data < KERNBASE + PHYSTOP
      requires Owned(mem, free, parent, PagesUp(sz))
      modifies this
      ensures mem.Keys == old(mem.Keys) && (forall g :: g in old(mem) && g !in old(free) ==> mem[g] == old(mem)[g])
      ensures r.Copied? ==> role == map[] && Pool(mem, free) && FreeSet(free) == FreeSet(old(free))
      ensures r.OutOfMemory? ==> |free| == |old(free)| - Lost(|old(free)|)
    {
      hide Lookup, Tree, Held, KernelWord, Pte, CopyOf, Owned, Pool;
      r := Copyuvm(parent, sz, data);
      if r.Copied? {
        Freevm(r.d);
      }
    }
  }

  // ----- copyuvm

  /** A copy that fails can lose frames: with ten free frames, setupkvm takes them all and gives none back. */
  method FramesLost() returns (m: Machine, r: CopyResult, before: nat)
    ensures before == 10 && r.OutOfMemory? && m.free == []
  {
    m := new Machine;
    var frames: set<nat> := {1, 2, 3, 4, 5, 6, 7, 8, 9, 10, 11};
    m.mem := map f | f in frames :: seq(NENTRIES, _ => 0);
    m.free := [1, 2, 3, 4, 5, 6, 7, 8, 9, 10];
    m.role := map[];
    before := |m.free|;
    r := m.Copyuvm(11, 0, KERNLINK + PGSIZE);
  }

  /** The parent's directory, tables and first `np` pages are in memory and in use. */
  ghost predicate Owned(mem: Memory, free: seq<nat>, parent: nat, np: nat)
    requires np <= UPAGES
  {
    && parent in mem && parent !in free && |mem[parent]| == NENTRIES
    && forall pn :: 0 <= pn < np ==> OwnedPage(mem, free, parent, pn)
  }

  ghost predicate OwnedPage(mem: Memory, free: seq<nat>, parent: nat, pn: nat)
    requires pn < UPAGES && parent in mem && |mem[parent]| == NENTRIES
  {
    && (Present(mem[parent][Pdx(pn)]) ==> TableOf(mem, parent, pn) in mem && TableOf(mem, parent, pn) !in free)
    && (Present(Lookup(mem, parent, pn)) ==> FrameOf(Lookup(mem, parent, pn)) in mem && FrameOf(Lookup(mem, parent, pn)) !in free)
  }

  /** Page `pn` of `d` has a frame of its own, with the contents and the flags of the parent's. */
  ghost predicate CopyOf(mem: Memory, parent: nat, mem': Memory, d: nat, role: map<nat, Role>, pn: nat)
    requires pn < NPAGES
  {
    var w, w' := Lookup(mem, parent, pn), Lookup(mem', d, pn);
    && Present(w) && Present(w') && Flags(w') == Flags(w)
    && FrameOf(w) in mem && FrameOf(w') in mem' && mem'[FrameOf(w')] == mem[FrameOf(w)]
    && FrameOf(w') in role && role[FrameOf(w')] == User(pn) && FrameOf(w') != FrameOf(w)
  }

  lemma SameLookup(mem: Memory, free: seq<nat>, mem': Memory, parent: nat, np: nat, pn: nat)
    requires np <= UPAGES && pn < np && Owned(mem, free, parent, np) && mem'.Keys == mem.Keys
    requires forall g :: g in mem && g !in free ==> mem'[g] == mem[g]
    ensures Lookup(mem', parent, pn) == Lookup(mem, parent, pn)
    ensures Present(Lookup(mem, parent, pn)) ==>
      FrameOf(Lookup(mem, parent, pn)) in mem && FrameOf(Lookup(mem, parent, pn)) !in free
  {
    assert OwnedPage(mem, free, parent, pn);
  }

  lemma TreeTail(mem: Memory, free: seq<nat>, d: nat, role: map<nat, Role>)
    requires Tree(mem, free, d, role) && 0 < |free|
    ensures Tree(mem, free[1..], d, role) && free[0] in mem && free[0] !in role && free[0] !in free[1..]
    ensures Held(free, role) == Held(free[1..], role) + {free[0]} && free[0] !in Held(free[1..], role)
  {
    assert free[0] in free;
    assert forall f :: f in free[1..] ==> f in free;
    assert forall f :: f in free && f != free[0] ==> f in free[1..];
  }

  /** Writing a frame that the directory does not use. */
  lemma TreeOutside(mem: Memory, free: seq<nat>, d: nat, role: map<nat, Role>, f: nat, page: Page)
    requires Tree(mem, free, d, role) && f in mem && f !in role && |page| == NENTRIES
    ensures Tree(mem[f := page], free, d, role)
    ensures forall q :: 0 <= q < NPAGES ==> Lookup(mem[f := page], d, q) == Lookup(mem, d, q)
  {
    var mem' := mem[f := page];
    forall q | 0 <= q < NPAGES ensures Lookup(mem', d, q) == Lookup(mem, d, q) {
      assert EntryOk(mem, d, role, Pdx(q));
    }
    SameTree(mem, free, d, role, mem');
  }

  lemma SameTree(mem: Memory, free: seq<nat>, d: nat, role: map<nat, Role>, mem': Memory)
    requires Tree(mem, free, d, role) && Pool(mem', free) && mem'.Keys == mem.Keys && mem'[d] == mem[d]
    requires forall q :: 0 <= q < NPAGES ==> Lookup(mem', d, q) == Lookup(mem, d, q)
    ensures Tree(mem', free, d, role)
  {
    hide Lookup;
    forall i | 0 <= i < NENTRIES ensures EntryOk(mem', d, role, i) {
      assert EntryOk(mem, d, role, i);
    }
    forall pn | 0 <= pn < UPAGES ensures UserOk(mem', d, role, pn) {
      assert UserOk(mem, d, role, pn);
    }
    forall f | f in role ensures RoleOk(mem', d, role, f) {
      assert RoleOk(mem, d, role, f);
    }
  }

  lemma KeepCopy(mem0: Memory, parent: nat, mem1: Memory, role1: map<nat, Role>, mem: Memory, d: nat, role: map<nat, Role>, pn: nat)
    requires pn < NPAGES && CopyOf(mem0, parent, mem1, d, role1, pn) && mem.Keys == mem1.Keys
    requires Lookup(mem, d, pn) == Lookup(mem1, d, pn)
    requires forall g :: g in mem1 && g in role1 && role1[g].User? ==> mem[g] == mem1[g]
    requires forall g :: g in role1 ==> g in role && role[g] == role1[g]
    ensures CopyOf(mem0, parent, mem, d, role, pn)
  {
    hide Lookup;
  }

  lemma NewCopy(mem0: Memory, parent: nat, mem: Memory, d: nat, role: map<nat, Role>, pn: nat, pte: nat)
    requires pn < NPAGES && pte == Lookup(mem0, parent, pn) && Present(pte) && FrameOf(pte) in mem0
    requires var w := Lookup(mem, d, pn);
      && Present(w) && Flags(w) == Flags(pte) && FrameOf(w) != FrameOf(pte)
      && FrameOf(w) in role && role[FrameOf(w)] == User(pn) && FrameOf(w) in mem && mem[FrameOf(w)] == mem0[FrameOf(pte)]
    ensures CopyOf(mem0, parent, mem, d, role, pn)
  {
    hide Lookup;
  }

  lemma RolesHeld(free0: seq<nat>, free: seq<nat>, role: map<nat, Role>)
    requires forall g :: g in Held(free, role) ==> g in FreeSet(free0)
    ensures forall g :: g in role || g in free ==> g in free0
  {
    forall g | g in role || g in free ensures g in free0 {
      assert g in Held(free, role);
    }
  }

  // ----- how many frames an address space takes

  /** The tables of the first `np` user pages. */
  function TablesFor(np: nat): (n: nat) { (np + NENTRIES - 1) / NENTRIES }

  /** The frames of an address space with `np` user pages: the directory, the kernel's 64 tables, the user's tables and pages. */
  function Frames(np: nat): (n: nat) { 65 + TablesFor(np) + np }

  /**
    The frames that a copyuvm without memory loses, from the number that were free: setupkvm
    gives nothing back, and a page is lost when its table was the one frame too many.
    */
  function Lost(n: nat): (r: nat) {
    if n < 65 then n else if (n - 66) % (NENTRIES + 1) == 0 then 1 else 0
  }

  predicate HasKernelTable(e: nat) { 512 <= e < 568 || 1016 <= e < NENTRIES }

  ghost predicate TablesAre(mem: Memory, d: nat, np: nat) {
    && d in mem && |mem[d]| == NENTRIES
    && forall e :: 0 <= e < NENTRIES ==> (Present(mem[d][e]) <==> HasKernelTable(e) || e < TablesFor(np))
  }

  lemma TablesNext(mem: Memory, mem': Memory, d: nat, i: nat)
    requires TablesAre(mem, d, i) && Widened(mem, mem', d, Pdx(i), Pdx(i))
    ensures TablesAre(mem', d, i + 1)
  {
    assert TablesFor(i + 1) == Pdx(i) + 1 && Pdx(i) <= TablesFor(i) <= Pdx(i) + 1;
  }

  /** How many of the parent's first `np` pages come before the first that is missing. */
  ghost function Intact(mem: Memory, parent: nat, np: nat): (j: nat)
    requires np <= UPAGES
    ensures j <= np && (forall pn :: 0 <= pn < j ==> Present(Lookup(mem, parent, pn)))
    ensures j < np ==> !Present(Lookup(mem, parent, j))
  {
    if np == 0 then 0
    else
      var j := Intact(mem, parent, np - 1);
      if j < np - 1 || !Present(Lookup(mem, parent, np - 1)) then j else np
  }

  lemma {:induction false} DistinctSize(free: seq<nat>)
    requires forall i, j :: 0 <= i < j < |free| ==> free[i] != free[j]
    ensures |FreeSet(free)| == |free|
  {
    if free != [] {
      var n := |free| - 1;
      DistinctSize(free[..n]);
      assert FreeSet(free) == FreeSet(free[..n]) + {free[n]};
      assert free[n] !in free[..n];
    }
  }

  /** A map that never repeats a value has as many values as keys. */
  lemma {:induction false} InjectiveSize(m: map<nat, Role>)
    requires forall f, g :: f in m && g in m && m[f] == m[g] ==> f == g
    ensures |m.Values| == |m|
    decreases m.Keys
  {
    if f :| f in m {
      var m' := m - {f};
      InjectiveSize(m');
      forall r | r in m.Values ensures r in m'.Values + {m[f]} {
        var g :| g in m && m[g] == r;
        assert g == f || g in m';
      }
      assert m.Values == m'.Values + {m[f]};
      assert |m| == |m'| + 1;
    } else {
      assert m.Values == {};
    }
  }

  ghost function TableRoles(tables: set<nat>): (r: set<Role>) { set i | i in tables :: Table(i) }
  ghost function UserRoles(np: nat): (r: set<Role>) { set pn | pn in Interval(0, np) :: User(pn) }

  lemma {:induction false} TableRolesSize(tables: set<nat>)
    ensures |TableRoles(tables)| == |tables|
    decreases |tables|
  {
    if i :| i in tables {
      TableRolesSize(tables - {i});
      assert TableRoles(tables) == TableRoles(tables - {i}) + {Table(i)};
    } else {
      assert TableRoles(tables) == {};
    }
  }

  lemma {:induction false} UserRolesSize(np: nat)
    ensures |UserRoles(np)| == np
  {
    if np > 0 {
      UserRolesSize(np - 1);
      assert UserRoles(np) == UserRoles(np - 1) + {User(np - 1)};
    } else {
      assert UserRoles(np) == {};
    }
  }

  lemma {:induction false} RolesSize(a: set<Role>, b: set<Role>)
    requires a !! b
    ensures |a + b| == |a| + |b|
    decreases |b|
  {
    if x :| x in b {
      RolesSize(a, b - {x});
      assert a + b == (a + (b - {x})) + {x};
    } else {
      assert a + b == a;
    }
  }

  /** The frames in hand, counted by their roles. */
  lemma Census(mem: Memory, free: seq<nat>, d: nat, role: map<nat, Role>, tables: set<nat>, np: nat)
    requires Tree(mem, free, d, role) && np <= UPAGES
    requires forall i :: i in tables <==> 0 <= i < NENTRIES && Present(mem[d][i])
    requires forall pn :: 0 <= pn < UPAGES ==> (Present(Lookup(mem, d, pn)) <==> pn < np)
    ensures |role| == 1 + |tables| + np
  {
    hide Lookup;
    var ts, us := TableRoles(tables), UserRoles(np);
    forall f, g | f in role && g in role && role[f] == role[g] ensures f == g {
      assert RoleOk(mem, d, role, f) && RoleOk(mem, d, role, g);
    }
    InjectiveSize(role);
    forall r | r in role.Values ensures r in {Directory} + ts + us {
      var f :| f in role && role[f] == r;
      assert RoleOk(mem, d, role, f);
    }
    forall r | r in {Directory} + ts + us ensures r in role.Values {
      AllRoles(mem, free, d, role, tables, np, r);
    }
    assert role.Values == {Directory} + ts + us;
    TableRolesSize(tables);
    UserRolesSize(np);
    RolesSize({Directory}, ts);
    RolesSize({Directory} + ts, us);
  }

  lemma AllRoles(mem: Memory, free: seq<nat>, d: nat, role: map<nat, Role>, tables: set<nat>, np: nat, r: Role)
    requires Tree(mem, free, d, role) && np <= UPAGES && r in {Directory} + TableRoles(tables) + UserRoles(np)
    requires forall i :: i in tables <==> 0 <= i < NENTRIES && Present(mem[d][i])
    requires forall pn :: 0 <= pn < UPAGES ==> (Present(Lookup(mem, d, pn)) <==> pn < np)
    ensures r in role.Values
  {
    hide Lookup;
    match r {
      case Directory => assert role[d] == r;
      case Table(i) => assert EntryOk(mem, d, role, i);
      case User(pn) => assert UserOk(mem, d, role, pn);
    }
  }

  /** Frames are conserved: free, or in hand. */
  lemma Conserved(mem0: Memory, free0: seq<nat>, mem: Memory, free: seq<nat>, d: nat, role: map<nat, Role>)
    requires Pool(mem0, free0) && Tree(mem, free, d, role) && Held(free, role) == FreeSet(free0)
    ensures |free| + |role| == |free0|
  {
    DistinctSize(free0);
    DistinctSize(free);
    DisjointSize(FreeSet(free), role.Keys);
  }

  /** The directory entries in use with `np` user pages. */
  ghost function Tables(np: nat): (r: set<nat>)
    ensures forall e :: e in r <==> 0 <= e < NENTRIES && (HasKernelTable(e) || e < TablesFor(np))
  {
    set e: nat | e < NENTRIES && (HasKernelTable(e) || e < TablesFor(np))
  }

  lemma TableCount(np: nat)
    requires np <= UPAGES
    ensures |Tables(np)| == 64 + TablesFor(np)
  {
    hide Interval, Tables;
    var a, b, c := Interval(512, 568), Interval(1016, NENTRIES), Interval(0, TablesFor(np));
    DisjointSize(a, b);
    DisjointSize(a + b, c);
    assert Tables(np) == a + b + c;
  }

  lemma FramesTaken(mem0: Memory, free0: seq<nat>, mem: Memory, free: seq<nat>, d: nat, role: map<nat, Role>, np: nat)
    requires Pool(mem0, free0) && Tree(mem, free, d, role) && Held(free, role) == FreeSet(free0) && np <= UPAGES
    requires TablesAre(mem, d, np) && forall pn :: 0 <= pn < UPAGES ==> (Present(Lookup(mem, d, pn)) <==> pn < np)
    ensures |role| == Frames(np) && |free| == |free0| - Frames(np)
  {
    hide Lookup, Pool, Tree, Held, Tables;
    Conserved(mem0, free0, mem, free, d, role);
    DirectoryPage(mem, free, d, role);
    TableCount(np);
    Census(mem, free, d, role, Tables(np), np);
  }

  /** setupkvm fails when there are fewer than 65 frames. */
  lemma TooFew(mem0: Memory, free0: seq<nat>, mem1: Memory, mem: Memory, free: seq<nat>, d: nat, role: map<nat, Role>, data: nat, k: nat)
    requires data % PGSIZE == 0 && KERNLINK < data < KERNBASE + PHYSTOP && k < NKMAP
    requires Pool(mem0, free0) && Tree(mem, free, d, role) && Held(free, role) == FreeSet(free0) && free == []
    requires KernelUpTo(mem1, d, data, k)
    requires var r := Kmap(data, k); Stuck(mem1, mem, d, r.virt / PGSIZE, (r.virt + r.size - 1) / PGSIZE)
    ensures |free0| < Frames(0)
  {
    hide Lookup, Pool, Tree, Held, KernelWord, Kmap, Tables, Stuck, KernelUpTo;
    Conserved(mem0, free0, mem, free, d, role);
    var r := Kmap(data, k);
    var e := StuckTables(mem1, mem, d, data, k);
    var tables := set e | 0 <= e < NENTRIES && Present(mem[d][e]);
    Census(mem, free, d, role, tables, 0);
    TableCount(0);
    SubsetSize(tables, Tables(0) - {e});
  }

  /** Only tables of kernel regions are there, and not all of them. */
  lemma StuckTables(mem1: Memory, mem: Memory, d: nat, data: nat, k: nat) returns (e: nat)
    requires data % PGSIZE == 0 && KERNLINK < data < KERNBASE + PHYSTOP && k < NKMAP && KernelUpTo(mem1, d, data, k)
    requires var r := Kmap(data, k); Stuck(mem1, mem, d, r.virt / PGSIZE, (r.virt + r.size - 1) / PGSIZE)
    ensures d in mem && |mem[d]| == NENTRIES && e in Tables(0) && !Present(mem[d][e])
    ensures forall e' :: 0 <= e' < NENTRIES && Present(mem[d][e']) ==> e' in Tables(0)
    ensures forall pn :: 0 <= pn < UPAGES ==> !Present(Lookup(mem, d, pn))
  {
    hide Lookup, KernelWord, Kmap, Covered, HasKernelTable;
    var r := Kmap(data, k);
    RegionFits(data, k);
    assert (r.virt + r.size - 1) / PGSIZE < NPAGES;
    CoveredIn(data, k + 1);
    forall e' | 0 <= e' < NENTRIES && Present(mem[d][e']) ensures e' in Tables(0) {
      CoveredAt(data, k, e');
    }
    e :| Pdx(r.virt / PGSIZE) <= e <= Pdx((r.virt + r.size - 1) / PGSIZE) && !Present(mem[d][e]);
    CoveredAt(data, k, e);
    forall pn | 0 <= pn < UPAGES ensures !Present(Lookup(mem, d, pn)) {
      UserOutside(data, pn, k);
    }
  }

  lemma CoveredIn(data: nat, k: nat)
    requires KERNLINK < data < KERNBASE + PHYSTOP && k <= NKMAP
    ensures forall e :: 0 <= e < NENTRIES && Covered(data, k, e) ==> HasKernelTable(e)
  {
    assert Pdx((data - 1) / PGSIZE) < 568;
  }

  lemma NoDirectory(mem: Memory, parent: nat, np: nat, free: seq<nat>)
    requires np <= UPAGES && |free| < Frames(0)
    ensures |free| < Frames(Intact(mem, parent, np)) && Lost(|free|) == |free|
  {
  }

  /** With `i` pages copied, their frames and tables are in hand, and the parent has been found to have them. */
  lemma CopiedSoFar(mem0: Memory, free0: seq<nat>, mem: Memory, free: seq<nat>, parent: nat, d: nat, role: map<nat, Role>, data: nat, i: nat, np: nat)
    requires data % PGSIZE == 0 && KERNLINK < data < KERNBASE + PHYSTOP && i <= np <= UPAGES
    requires Pool(mem0, free0) && Tree(mem, free, d, role) && Held(free, role) == FreeSet(free0) && TablesAre(mem, d, i)
    requires forall pn :: 0 <= pn < i ==> CopyOf(mem0, parent, mem, d, role, pn)
    requires forall q :: i <= q < NPAGES ==> Lookup(mem, d, q) == KernelWord(data, q, NKMAP)
    ensures |role| == Frames(i) && |free| == |free0| - Frames(i)
    ensures i <= Intact(mem0, parent, np)
    ensures i < np && !Present(Lookup(mem0, parent, i)) ==> Intact(mem0, parent, np) == i
  {
    hide Lookup, Pool, Tree, Held, TablesAre, KernelWord;
    forall pn | 0 <= pn < UPAGES ensures Present(Lookup(mem, d, pn)) <==> pn < i {
      if pn < i {
        assert CopyOf(mem0, parent, mem, d, role, pn);
      } else {
        UserOutside(data, pn, NKMAP);
      }
    }
    FramesTaken(mem0, free0, mem, free, d, role, i);
    forall pn | 0 <= pn < i ensures Present(Lookup(mem0, parent, pn)) {
      assert CopyOf(mem0, parent, mem, d, role, pn);
    }
  }

  /** Page `i` found no frame for itself, or none for its table. */
  lemma LastFrame(mem0: Memory, parent: nat, np: nat, i: nat, before: nat, left: nat, taken: nat, mem: Memory, d: nat)
    requires i < np <= UPAGES && i <= Intact(mem0, parent, np) && Present(Lookup(mem0, parent, i)) && TablesAre(mem, d, i)
    requires taken == Frames(i) && left == before - Frames(i) && (left == 0 || (left == 1 && !Present(mem[d][Pdx(i)])))
    ensures before < Frames(Intact(mem0, parent, np)) && Lost(before) == left
  {
    hide Lookup, Intact;
    var k, r := i / NENTRIES, i % NENTRIES;
    assert i < Intact(mem0, parent, np);
    assert Frames(i + 1) <= Frames(Intact(mem0, parent, np));
    if left == 1 {
      assert r == 0;
      assert before - 66 == (NENTRIES + 1) * k;
    } else if r == 0 {
      assert before - 66 == (NENTRIES + 1) * (k - 1) + NENTRIES;
    } else {
      assert before - 66 == (NENTRIES + 1) * k + r;
    }
  }

  lemma FreedAll(mem: Memory, free: seq<nat>, role: map<nat, Role>)
    requires Pool(mem, free) && FreeSet(free) == Held([], role)
    ensures |free| == |role|
  {
    DistinctSize(free);
    assert Held([], role) == role.Keys;
  }

  // ----- freevm, once no user page is left

  /** Directory entries from `i` on still own their tables; nothing else but the directory is in hand. */
  ghost predicate Doomed(mem: Memory, free: seq<nat>, d: nat, role: map<nat, Role>, i: nat) {
    && Pool(mem, free) && d in role && d in mem
    && (forall g :: g in role ==> g in mem && g !in free && g != 0 && (g == d || TableIn(mem[d], role, g, i)))
    && (forall j :: i <= j < NENTRIES ==> Owns(mem[d], role, d, j))
  }

  ghost predicate TableIn(dir: Page, role: map<nat, Role>, g: nat, i: nat)
    requires |dir| == NENTRIES && g in role
  {
    role[g].Table? && i <= role[g].i < NENTRIES && Present(dir[role[g].i]) && FrameOf(dir[role[g].i]) == g
  }

  ghost predicate Owns(dir: Page, role: map<nat, Role>, d: nat, j: nat)
    requires |dir| == NENTRIES && j < NENTRIES
  {
    Present(dir[j]) ==> FrameOf(dir[j]) in role && FrameOf(dir[j]) != d && role[FrameOf(dir[j])] == Table(j)
  }

  lemma Condemn(mem: Memory, free: seq<nat>, d: nat, role: map<nat, Role>)
    requires Tree(mem, free, d, role) && forall g :: g in role ==> !role[g].User?
    ensures Doomed(mem, free, d, role, 0)
  {
    forall g | g in role && g != d ensures TableIn(mem[d], role, g, 0) {
      assert RoleOk(mem, d, role, g);
    }
    forall j | 0 <= j < NENTRIES ensures Owns(mem[d], role, d, j) {
      assert EntryOk(mem, d, role, j);
    }
  }

  lemma DoomedPage(mem: Memory, free: seq<nat>, d: nat, role: map<nat, Role>, i: nat)
    requires Doomed(mem, free, d, role, i) && i < NENTRIES
    ensures d in mem && |mem[d]| == NENTRIES
    ensures Present(mem[d][i]) ==> FrameOf(mem[d][i]) in role
  {
    assert Owns(mem[d], role, d, i);
  }

  lemma DropTable(mem: Memory, free: seq<nat>, d: nat, role: map<nat, Role>, i: nat)
    requires Doomed(mem, free, d, role, i) && i < NENTRIES && Present(mem[d][i])
    ensures var t := FrameOf(mem[d][i]);
      Doomed(mem[t := seq(NENTRIES, _ => JUNK)], [t] + free, d, role - {t}, i + 1)
  {
    var t := FrameOf(mem[d][i]);
    var mem', role' := mem[t := seq(NENTRIES, _ => JUNK)], role - {t};
    assert Owns(mem[d], role, d, i);
    forall g | g in role' && g != d ensures TableIn(mem'[d], role', g, i + 1) {
      assert TableIn(mem[d], role, g, i);
    }
    forall j | i < j < NENTRIES ensures Owns(mem'[d], role', d, j) {
      assert Owns(mem[d], role, d, j);
    }
  }

  lemma SkipTable(mem: Memory, free: seq<nat>, d: nat, role: map<nat, Role>, i: nat)
    requires Doomed(mem, free, d, role, i) && i < NENTRIES && !Present(mem[d][i])
    ensures Doomed(mem, free, d, role, i + 1)
  {
    forall g | g in role && g != d ensures TableIn(mem[d], role, g, i + 1) {
      assert TableIn(mem[d], role, g, i);
    }
  }

  lemma DropDirectory(mem: Memory, free: seq<nat>, d: nat, role: map<nat, Role>)
    requires Doomed(mem, free, d, role, NENTRIES)
    ensures role - {d} == map[] && d in role && d in mem && Pool(mem[d := seq(NENTRIES, _ => JUNK)], [d] + free)
  {
    forall g | g in role ensures g == d {
    }
  }

  lemma NothingHeld(free: seq<nat>)
    ensures Held(free, map[]) == FreeSet(free)
  {
  }

  lemma AllUnmapped(mem: Memory, mem': Memory, d: nat)
    requires d in mem && |mem[d]| == NENTRIES
    requires forall q :: 0 <= q < NPAGES ==>
      Lookup(mem', d, q) == if PagesUp(0) <= q < PagesUp(KERNBASE) && Present(Lookup(mem, d, q)) && !Jumped(mem[d], PagesUp(0), q) then 0
                            else Lookup(mem, d, q)
    ensures forall pn :: 0 <= pn < UPAGES ==> !Present(Lookup(mem', d, pn))
  {
    hide Lookup, Jumped;
    forall pn | 0 <= pn < UPAGES ensures !Present(Lookup(mem', d, pn)) {
      NothingJumped(mem[d], PagesUp(0), pn);
    }
  }

  /** PGROUNDUP, in pages. */
  function PagesUp(sz: nat): (n: nat) { (sz + PGSIZE - 1) / PGSIZE }

  // ----- the pages deallocuvm visits

  ghost predicate AllMissing(dir: Page, i: nat, j: nat)
    requires |dir| == NENTRIES && j <= NENTRIES
  {
    forall k :: i <= k < j ==> !Present(dir[k])
  }

  /**
    deallocuvm steps 1024 pages forward where a table is missing, from wherever in the
    table it stands.  It jumps over page `q` just when it has met no table before q's, and
    q lies in its table below the place where the walk lands.
    */
  ghost predicate Jumped(dir: Page, from: nat, q: nat)
    requires |dir| == NENTRIES && q < NPAGES
  {
    Pdx(from) < Pdx(q) && Present(dir[Pdx(q)]) && Ptx(q) < Ptx(from) && AllMissing(dir, Pdx(from), Pdx(q))
  }

  /** Where the walk from page `from` can stand. */
  ghost predicate Walked(dir: Page, from: nat, a: nat)
    requires |dir| == NENTRIES && a <= UPAGES + NENTRIES
  {
    if AllMissing(dir, Pdx(from), Pdx(a)) then Ptx(from) <= Ptx(a) && (!Present(dir[Pdx(a)]) ==> Ptx(a) == Ptx(from))
    else Ptx(a) == 0 || Present(dir[Pdx(a)])
  }

  lemma WalkStart(dir: Page, from: nat)
    requires |dir| == NENTRIES && from <= UPAGES
    ensures Walked(dir, from, from)
  {
  }

  lemma WalkVisits(dir: Page, from: nat, a: nat)
    requires |dir| == NENTRIES && from <= a < UPAGES && Walked(dir, from, a)
    ensures !Jumped(dir, from, a)
  {
  }

  lemma WalkStep(dir: Page, from: nat, a: nat)
    requires |dir| == NENTRIES && from <= a < UPAGES && Walked(dir, from, a) && Present(dir[Pdx(a)])
    ensures Walked(dir, from, a + 1)
  {
    if Ptx(a) == NENTRIES - 1 {
      assert Pdx(a + 1) == Pdx(a) + 1 && Ptx(a + 1) == 0;
    } else {
      assert Pdx(a + 1) == Pdx(a) && Ptx(a + 1) == Ptx(a) + 1;
    }
  }

  lemma WalkSkip(dir: Page, from: nat, a: nat)
    requires |dir| == NENTRIES && from <= a < UPAGES && Walked(dir, from, a) && !Present(dir[Pdx(a)])
    ensures Walked(dir, from, a + NENTRIES)
  {
    assert Pdx(a + NENTRIES) == Pdx(a) + 1 && Ptx(a + NENTRIES) == Ptx(a);
  }

  lemma WalkJumps(mem: Memory, d: nat, from: nat, a: nat, q: nat)
    requires d in mem && |mem[d]| == NENTRIES && from <= a <= q < UPAGES && q < a + NENTRIES
    requires Walked(mem[d], from, a) && !Present(mem[d][Pdx(a)])
    ensures Jumped(mem[d], from, q) || !Present(Lookup(mem, d, q))
  {
    if Present(mem[d][Pdx(q)]) {
      assert Pdx(q) == Pdx(a) + 1 && Ptx(q) < Ptx(a);
    }
  }

  /**
    deallocuvm unmaps the whole range from any image without holes in its tables, and from
    any image at all when the range starts on a 4 MB boundary, as freevm's does.
    */
  lemma NothingJumped(dir: Page, from: nat, q: nat)
    requires |dir| == NENTRIES && q < NPAGES
    requires Ptx(from) == 0 || forall i, j :: 0 <= i < j <= Pdx(q) && Present(dir[j]) ==> Present(dir[i])
    ensures !Jumped(dir, from, q)
  {
    if Pdx(from) < Pdx(q) && Ptx(q) < Ptx(from) && Present(dir[Pdx(q)]) {
      assert Present(dir[Pdx(from)]);
    }
  }

  /** In an image whose pages below `np` are all mapped, none of them is jumped over from any start. */
  lemma NoHole(mem: Memory, d: nat, np: nat, from: nat, q: nat)
    requires d in mem && |mem[d]| == NENTRIES && q < np <= UPAGES && forall pn :: 0 <= pn < np ==> Present(Lookup(mem, d, pn))
    ensures !Jumped(mem[d], from, q)
  {
    if Pdx(from) < Pdx(q) {
      var first := Pdx(from) * NENTRIES;
      assert Pdx(first) == Pdx(from) && first <= q;
      assert Present(Lookup(mem, d, first));
    }
  }

  lemma CopiesPresent(mem0: Memory, parent: nat, mem: Memory, d: nat, role: map<nat, Role>, np: nat)
    requires np <= UPAGES && forall pn :: 0 <= pn < np ==> CopyOf(mem0, parent, mem, d, role, pn)
    ensures forall pn :: 0 <= pn < np ==> Present(Lookup(mem, d, pn))
  {
    hide Lookup;
    forall pn | 0 <= pn < np ensures Present(Lookup(mem, d, pn)) {
      assert CopyOf(mem0, parent, mem, d, role, pn);
    }
  }

  /**
    A page can be jumped over: a directory whose only page is page 1024, in the second table.
    deallocuvm from page 5 finds no first table, lands on page 1029 and leaves page 1024
    mapped.
    */
  lemma PageJumped() returns (mem: Memory, free: seq<nat>, d: nat, role: map<nat, Role>)
    ensures Tree(mem, free, d, role)
    ensures Present(Lookup(mem, d, NENTRIES)) && Jumped(mem[d], 5, NENTRIES)
  {
    hide Lookup, Tree, WithWord, Pte;
    var zero: Page := seq(NENTRIES, _ => 0);
    var mem0: Memory := map[1 := zero, 2 := zero, 3 := zero];
    var mem1 := mem0[1 := zero];
    NewDirectory(mem0, [1, 2, 3], 1, mem1);
    assert [1, 2, 3][1..] == [2, 3] && mem1[1] == zero;
    var dir: Page := zero[1 := Pte(2, PTE_W + PTE_U)];
    var mem2 := mem1[2 := zero][1 := dir];
    AddTable(mem1, [2, 3], 1, map[1 := Directory], 1, mem2);
    assert [2, 3][1..] == [3];
    var role2 := map[1 := Directory][2 := Table(1)];
    PteFacts(2, PTE_W + PTE_U);
    TreeTail(mem2, [3], 1, role2);
    assert [3][1..] == [];
    TableRole(mem2, [], 1, role2, NENTRIES);
    PteFacts(3, 0);
    SetUser(mem2, [], 1, role2, NENTRIES, Pte(3, 0), 3);
    WithWordLookup(mem2, [], 1, role2, NENTRIES, Pte(3, 0), NENTRIES);
    WordTree(mem2, [], 1, role2, NENTRIES, Pte(3, 0));
    mem, free, d, role := WithWord(mem2, 1, NENTRIES, Pte(3, 0)), [], 1, role2[3 := User(NENTRIES)];
    assert mem[1] == dir;
  }

  lemma UserRange(sz: nat)
    requires sz <= KERNBASE
    ensures PagesUp(sz) <= UPAGES
  {
  }

  lemma RangeOrder(oldsz: nat, newsz: nat)
    requires newsz >= oldsz
    ensures PagesUp(newsz) >= PagesUp(oldsz)
  {
  }

  lemma InRange(a: nat, oldsz: nat)
    requires a * PGSIZE < oldsz <= KERNBASE
    ensures a < UPAGES && a < PagesUp(oldsz) && Pdx(a) < NENTRIES
  {
  }

  lemma RangeEnd(a: nat, oldsz: nat)
    requires a * PGSIZE >= oldsz
    ensures PagesUp(oldsz) <= a
  {
  }

  lemma DirectoryPage(mem: Memory, free: seq<nat>, d: nat, role: map<nat, Role>)
    requires Tree(mem, free, d, role)
    ensures d in mem && |mem[d]| == NENTRIES
  {
  }

  lemma UserFrame(mem: Memory, free: seq<nat>, d: nat, role: map<nat, Role>, pn: nat)
    requires Tree(mem, free, d, role) && pn < UPAGES && Present(Lookup(mem, d, pn))
    ensures FrameOf(Lookup(mem, d, pn)) in role && role[FrameOf(Lookup(mem, d, pn))] == User(pn)
    ensures FrameOf(Lookup(mem, d, pn)) != d && FrameOf(Lookup(mem, d, pn)) in mem
  {
    hide Lookup;
    assert UserOk(mem, d, role, pn);
  }

  lemma PushHeld(free: seq<nat>, role: map<nat, Role>, f: nat)
    requires f in role
    ensures Held([f] + free, role - {f}) == Held(free, role)
  {
  }

  const NKMAP: nat := 4

  /** One line of the kernel's map. */
  datatype Region = Region(virt: nat, phys: nat, size: nat, perm: nat)

  function Kmap(data: nat, k: nat): (r: Region)
    requires KERNLINK < data < KERNBASE + PHYSTOP && k < NKMAP
  {
    match k
    case 0 => Region(KERNBASE, 0, EXTMEM, PTE_W)
    case 1 => Region(KERNLINK, KERNLINK - KERNBASE, data - KERNLINK, 0)
    case 2 => Region(data, data - KERNBASE, PHYSTOP - (data - KERNBASE), PTE_W)
    case _ => Region(DEVSPACE, DEVSPACE, WORD - DEVSPACE, PTE_W)
  }

  predicate InRegion(r: Region, q: nat) {
    r.virt / PGSIZE <= q <= (r.virt + r.size - 1) / PGSIZE
  }

  /** The word of page `q` once the first `k` regions are mapped. */
  function KernelWord(data: nat, q: nat, k: nat): (w: nat)
    requires KERNLINK < data < KERNBASE + PHYSTOP && k <= NKMAP
  {
    if k == 0 then 0
    else
      var r := Kmap(data, k - 1);
      if InRegion(r, q) && r.perm < PGSIZE then Pte(r.phys / PGSIZE + (q - r.virt / PGSIZE), r.perm)
      else KernelWord(data, q, k - 1)
  }

  lemma RegionFits(data: nat, k: nat)
    requires data % PGSIZE == 0 && KERNLINK < data < KERNBASE + PHYSTOP && k < NKMAP
    ensures var r := Kmap(data, k);
      0 < r.size && KERNBASE <= r.virt && r.virt + r.size <= WORD && r.phys % PGSIZE == 0 && r.perm < PGSIZE
  {
  }

  /** The directory when the first `k` regions are mapped. */
  ghost predicate KernelUpTo(mem: Memory, d: nat, data: nat, k: nat)
    requires KERNLINK < data < KERNBASE + PHYSTOP && k <= NKMAP
  {
    && (forall q :: 0 <= q < NPAGES ==> Lookup(mem, d, q) == KernelWord(data, q, k))
    && d in mem && |mem[d]| == NENTRIES
    && (forall e :: 0 <= e < NENTRIES ==> (Present(mem[d][e]) <==> Covered(data, k, e)))
  }

  /** Directory entry `e` serves one of the first `k` regions. */
  predicate Covered(data: nat, k: nat, e: nat)
    requires 0 < data
  {
    || (k > 0 && e == 512) || (k > 1 && 512 <= e <= Pdx((data - 1) / PGSIZE)) || (k > 2 && 512 <= e < 568) || (k > 3 && 1016 <= e)
  }

  lemma KernelStart(mem: Memory, d: nat, data: nat)
    requires KERNLINK < data < KERNBASE + PHYSTOP && d in mem && mem[d] == seq(NENTRIES, _ => 0)
    requires forall pn :: 0 <= pn < NPAGES ==> Lookup(mem, d, pn) == 0
    ensures KernelUpTo(mem, d, data, 0)
  {
    hide Lookup;
  }

  /** The next region is still unmapped. */
  lemma KernelUnmapped(mem: Memory, d: nat, data: nat, k: nat)
    requires data % PGSIZE == 0 && KERNLINK < data < KERNBASE + PHYSTOP && k < NKMAP && KernelUpTo(mem, d, data, k)
    ensures var r := Kmap(data, k);
      forall q :: r.virt / PGSIZE <= q <= (r.virt + r.size - 1) / PGSIZE && q < NPAGES ==> !Present(Lookup(mem, d, q))
  {
    hide Lookup, Kmap, KernelWord;
    RegionsDisjoint(data, k);
  }

  lemma KernelNext(mem: Memory, mem': Memory, d: nat, data: nat, k: nat)
    requires data % PGSIZE == 0 && KERNLINK < data < KERNBASE + PHYSTOP && k < NKMAP && KernelUpTo(mem, d, data, k) && Kmap(data, k).perm < PGSIZE
    requires var r := Kmap(data, k);
      && Widened(mem, mem', d, Pdx(r.virt / PGSIZE), Pdx((r.virt + r.size - 1) / PGSIZE))
      && RangeMapped(mem, mem', d, r.virt / PGSIZE, (r.virt + r.size - 1) / PGSIZE, r.phys / PGSIZE, r.perm)
    ensures KernelUpTo(mem', d, data, k + 1)
  {
    hide Lookup, Pte;
    KernelWordStep(data, k);
    CoveredStep(data, k);
  }

  lemma CoveredAt(data: nat, k: nat, e: nat)
    requires data % PGSIZE == 0 && KERNLINK < data < KERNBASE + PHYSTOP && k < NKMAP && e < NENTRIES
    ensures var r := Kmap(data, k);
      Covered(data, k + 1, e) <==> Covered(data, k, e) || Pdx(r.virt / PGSIZE) <= e <= Pdx((r.virt + r.size - 1) / PGSIZE)
  {
    CoveredStep(data, k);
  }

  lemma CoveredStep(data: nat, k: nat)
    requires data % PGSIZE == 0 && KERNLINK < data < KERNBASE + PHYSTOP && k < NKMAP
    ensures var r := Kmap(data, k);
      forall e :: 0 <= e < NENTRIES ==>
        (Covered(data, k + 1, e) <==> Covered(data, k, e) || Pdx(r.virt / PGSIZE) <= e <= Pdx((r.virt + r.size - 1) / PGSIZE))
  {
    assert Pdx(data / PGSIZE) - 1 <= Pdx((data - 1) / PGSIZE) <= Pdx(data / PGSIZE);
  }

  lemma KernelDone(mem: Memory, d: nat, data: nat)
    requires data % PGSIZE == 0 && KERNLINK < data < KERNBASE + PHYSTOP && KernelUpTo(mem, d, data, NKMAP)
    ensures forall q :: 0 <= q < NPAGES ==> Lookup(mem, d, q) == KernelWord(data, q, NKMAP)
    ensures forall pn :: 0 <= pn < UPAGES ==> Lookup(mem, d, pn) == 0
    ensures forall va :: 0 <= va < WORD ==> KernelSpace(data, va, WordAt(mem, d, va))
    ensures TablesAre(mem, d, 0)
  {
    hide Lookup, KernelWord, KernelSpace, WordAt;
    forall pn | 0 <= pn < UPAGES ensures Lookup(mem, d, pn) == 0 {
      UserOutside(data, pn, NKMAP);
    }
    KernelMapped(mem, d, data, 0);
    assert Pdx((data - 1) / PGSIZE) < 568;
  }

  lemma KernelWordStep(data: nat, k: nat)
    requires data % PGSIZE == 0 && KERNLINK < data < KERNBASE + PHYSTOP && k < NKMAP && Kmap(data, k).perm < PGSIZE
    ensures var r := Kmap(data, k);
      forall q :: 0 <= q < NPAGES ==>
        KernelWord(data, q, k + 1)
          == if InRegion(r, q) then Pte(r.phys / PGSIZE + (q - r.virt / PGSIZE), r.perm) else KernelWord(data, q, k)
  {
  }

  lemma UserOutside(data: nat, pn: nat, k: nat)
    requires data % PGSIZE == 0 && KERNLINK < data < KERNBASE + PHYSTOP && pn < UPAGES && k <= NKMAP
    ensures KernelWord(data, pn, k) == 0
  {
    forall j | 0 <= j < k ensures !InRegion(Kmap(data, j), pn) {
      RegionFits(data, j);
    }
    NoKernelWord(data, pn, k);
  }

  lemma {:induction false} NoKernelWord(data: nat, q: nat, k: nat)
    requires data % PGSIZE == 0 && KERNLINK < data < KERNBASE + PHYSTOP && k <= NKMAP
    requires forall j :: 0 <= j < k ==> !InRegion(Kmap(data, j), q)
    ensures KernelWord(data, q, k) == 0
  {
    if k > 0 {
      NoKernelWord(data, q, k - 1);
    }
  }

  /** The four regions, by address. */
  lemma KernelByAddress(data: nat, va: nat)
    requires data % PGSIZE == 0 && KERNLINK < data < KERNBASE + PHYSTOP && va < WORD
    ensures KernelSpace(data, va, KernelWord(data, va / PGSIZE, NKMAP))
  {
    hide Pte, KernelWord;
    var q := va / PGSIZE;
    RegionOf(data, va, 0);
    RegionOf(data, va, 1);
    RegionOf(data, va, 2);
    RegionOf(data, va, 3);
    FlagBits(if KERNLINK <= va < data then 0 else PTE_W, (if va < DEVSPACE && KERNBASE <= va then va - KERNBASE else va) / PGSIZE);
    if !(KERNBASE <= va < KERNBASE + PHYSTOP || DEVSPACE <= va) {
      NoKernelWord(data, q, NKMAP);
    }
  }

  lemma RegionOf(data: nat, va: nat, k: nat)
    requires data % PGSIZE == 0 && KERNLINK < data < KERNBASE + PHYSTOP && va < WORD && k < NKMAP
    ensures var r := Kmap(data, k);
      && (InRegion(r, va / PGSIZE) <==> r.virt <= va < r.virt + r.size)
      && KernelWord(data, va / PGSIZE, k + 1)
         == if r.virt <= va < r.virt + r.size then Pte((r.phys + (va - r.virt)) / PGSIZE, r.perm) else KernelWord(data, va / PGSIZE, k)
  {
    hide Pte, Kmap;
    var r := Kmap(data, k);
    RegionAligned(data, k);
    PageInRange(r.virt, r.size, r.phys, va);
  }

  lemma RegionAligned(data: nat, k: nat)
    requires data % PGSIZE == 0 && KERNLINK < data < KERNBASE + PHYSTOP && k < NKMAP
    ensures var r := Kmap(data, k); r.virt % PGSIZE == 0 && r.size % PGSIZE == 0 && r.phys % PGSIZE == 0 && 0 < r.size && r.perm < PGSIZE
  {
  }

  lemma PageInRange(virt: nat, size: nat, phys: nat, va: nat)
    requires virt % PGSIZE == 0 && size % PGSIZE == 0 && phys % PGSIZE == 0 && 0 < size
    ensures virt / PGSIZE <= va / PGSIZE <= (virt + size - 1) / PGSIZE <==> virt <= va < virt + size
    ensures virt <= va ==> phys / PGSIZE + (va / PGSIZE - virt / PGSIZE) == (phys + (va - virt)) / PGSIZE
  {
    var v, n, p := virt / PGSIZE, size / PGSIZE, phys / PGSIZE;
    assert virt + size - 1 == (v + n - 1) * PGSIZE + (PGSIZE - 1);
    assert (virt + size - 1) / PGSIZE == v + n - 1;
    assert phys + (va - virt) == (p + va / PGSIZE - v) * PGSIZE + va % PGSIZE;
  }

  lemma KernelMapped(mem: Memory, d: nat, data: nat, np: nat)
    requires data % PGSIZE == 0 && KERNLINK < data < KERNBASE + PHYSTOP && np <= NPAGES
    requires forall q :: np <= q < NPAGES ==> Lookup(mem, d, q) == KernelWord(data, q, NKMAP)
    ensures forall va :: np * PGSIZE <= va < WORD ==> KernelSpace(data, va, WordAt(mem, d, va))
  {
    hide Lookup, KernelWord, KernelSpace;
    forall va | np * PGSIZE <= va < WORD ensures KernelSpace(data, va, WordAt(mem, d, va)) {
      KernelByAddress(data, va);
      assert np <= va / PGSIZE < NPAGES;
    }
  }

  /** No page lies in two regions. */
  lemma RegionsDisjoint(data: nat, k: nat)
    requires data % PGSIZE == 0 && KERNLINK < data < KERNBASE + PHYSTOP && k < NKMAP
    ensures forall q :: 0 <= q && InRegion(Kmap(data, k), q) ==> KernelWord(data, q, k) == 0
  {
    forall q | 0 <= q && InRegion(Kmap(data, k), q) ensures KernelWord(data, q, k) == 0 {
      forall j | 0 <= j < k ensures !InRegion(Kmap(data, j), q) {
        assert data / PGSIZE * PGSIZE == data;
      }
      NoKernelWord(data, q, k);
    }
  }

  lemma HeldFree(free0: seq<nat>, free: seq<nat>, role: map<nat, Role>)
    requires Held(free, role) == FreeSet(free0)
    ensures forall g :: g !in free0 ==> g !in Held(free, role)
  {
  }

  lemma NoUserPages(mem: Memory, free: seq<nat>, d: nat, role: map<nat, Role>)
    requires Tree(mem, free, d, role) && forall pn :: 0 <= pn < UPAGES ==> !Present(Lookup(mem, d, pn))
    ensures forall g :: g in role ==> !role[g].User?
  {
    forall g | g in role ensures !role[g].User? {
      assert RoleOk(mem, d, role, g);
    }
  }

  lemma RolesInMemory(mem: Memory, free: seq<nat>, d: nat, role: map<nat, Role>)
    requires Tree(mem, free, d, role)
    ensures forall g :: g in role ==> g in mem && g !in free && g != 0
  {
  }

  lemma PageRange(va: nat, size: nat)
    requires 0 < size && va + size <= WORD
    ensures va / PGSIZE <= (va + size - 1) / PGSIZE < NPAGES
    ensures KERNBASE <= va ==> UPAGES <= va / PGSIZE
    ensures va % PGSIZE == 0 && size == PGSIZE ==> va / PGSIZE == (va + size - 1) / PGSIZE
    ensures va < KERNBASE ==> va / PGSIZE < UPAGES
  {
  }

  lemma PteFacts(f: nat, perm: nat)
    requires perm < PGSIZE
    ensures Present(Pte(f, perm)) && FrameOf(Pte(f, perm)) == f
  {
  }

  lemma AddHeld(free: seq<nat>, role: map<nat, Role>, f: nat, r: Role)
    ensures Held(free, role[f := r]) == Held(free, role) + {f}
  {
  }

  /** A frame outside is still outside after an allocation. */
  lemma NewRoles(free: seq<nat>, role: map<nat, Role>, free': seq<nat>, role': map<nat, Role>)
    requires Held(free', role') == Held(free, role)
    ensures forall g :: g !in Held(free, role) ==> g !in free' && g !in role'
  {
    forall g | g !in Held(free, role) ensures g !in free' && g !in role' {
      assert g !in Held(free', role');
    }
  }

  /** Writing a page-table word touches only that table. */
  lemma WordFrame(mem: Memory, free: seq<nat>, d: nat, role: map<nat, Role>, pn: nat, w: nat)
    requires Tree(mem, free, d, role) && HasTable(mem, d, pn)
    ensures WithWord(mem, d, pn, w).Keys == mem.Keys
    ensures forall g :: g in mem && (g !in role || role[g].User?) ==> WithWord(mem, d, pn, w)[g] == mem[g]
  {
    TableRole(mem, free, d, role, pn);
  }

  lemma TreePool(mem: Memory, free: seq<nat>, d: nat, role: map<nat, Role>)
    requires Tree(mem, free, d, role)
    ensures Pool(mem, free)
  {
  }

  /** An empty directory. */
  lemma NewDirectory(mem: Memory, free: seq<nat>, d: nat, mem': Memory)
    requires Pool(mem, free) && 0 < |free| && d == free[0] && mem' == mem[d := seq(NENTRIES, _ => 0)]
    ensures Tree(mem', free[1..], d, map[d := Directory])
    ensures forall pn :: 0 <= pn < NPAGES ==> Lookup(mem', d, pn) == 0
  {
    assert d in free;
    assert forall f :: f in free[1..] ==> f in free && f != d;
  }

  lemma StartHeld(free: seq<nat>, d: nat)
    requires 0 < |free| && d == free[0]
    ensures Held(free[1..], map[d := Directory]) == FreeSet(free)
  {
    PopHeld(free, map[], Directory);
    assert map[d := Directory] == map[][free[0] := Directory];
    assert Held(free, map[]) == FreeSet(free);
  }

  lemma PopHeld(free: seq<nat>, role: map<nat, Role>, r: Role)
    requires 0 < |free|
    ensures Held(free[1..], role[free[0] := r]) == Held(free, role)
  {
    forall f | f in Held(free, role) ensures f in Held(free[1..], role[free[0] := r]) {
      if f in free && f != free[0] {
        assert f in free[1..];
      }
    }
    forall f | f in Held(free[1..], role[free[0] := r]) ensures f in Held(free, role) {
      assert free[0] in free;
    }
  }
}
