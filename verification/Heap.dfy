/**
  The user-level allocator: an address-ordered circular free list with coalescing.
  Addresses count header-sized units.  `mem` maps the address of a unit to its two words;
  the allocator only ever uses them as a header, a caller may put anything there.

  Ghost state: `blocks`, the free list in address order starting at `base`; `live`, the
  blocks handed out, with their sizes; `obtained`, the units received from sbrk.
  */
module Heap {
  import opened Common

  datatype Header = Header(ptr: int, size: int)

  const NULL := 0
  const BASE := 1           // address of the static header `base`, below the heap
  const NALLOC := 4096      // units requested from sbrk at least
  const UNIT := 8           // bytes in a header
  const KERNBASE := 0x8000_0000

  type Memory = map<int, Header>

  // ----- the free list

  /** The index after `i` on a ring of `n`. */
  function Succ(i: nat, n: nat): (j: nat)
    requires i < n
    ensures j < n
  {
    if i + 1 == n then 0 else i + 1
  }

  /** How many steps lead from `i` to `t` on a ring of `n`. */
  function Dist(i: nat, t: nat, n: nat): (r: nat)
    requires i < n && t < n
    ensures r < n && (r == 0 <==> i == t)
  {
    if i <= t then t - i else n - i + t
  }

  /** Block `a` lies in memory. */
  ghost predicate Mapped(mem: Memory, a: int, size: int) {
    forall u :: a <= u < a + size ==> u in mem
  }

  /** Nothing of the memory lies at or above `brk`. */
  ghost predicate Within(mem: Memory, brk: int) {
    forall u :: u in mem ==> u < brk
  }

  /** Every list element points to the next, the last one to `base`. */
  ghost predicate Links(mem: Memory, blocks: seq<int>) {
    && (forall i :: 0 <= i < |blocks| ==> blocks[i] in mem)
    && (forall i :: 0 <= i < |blocks| ==> LinkAt(mem, blocks, i))
  }

  ghost predicate LinkAt(mem: Memory, blocks: seq<int>, i: nat) {
    i < |blocks| && blocks[i] in mem && mem[blocks[i]].ptr == blocks[Succ(i, |blocks|)]
  }

  /** The list is in address order, and no block touches the next one. */
  ghost predicate Spaced(mem: Memory, blocks: seq<int>)
    requires forall i :: 0 <= i < |blocks| ==> blocks[i] in mem
  {
    forall i, j :: 0 <= i < j < |blocks| ==> blocks[i] + mem[blocks[i]].size < blocks[j]
  }

  /** The blocks consist of memory below `brk`; only `base` is empty. */
  ghost predicate Extents(mem: Memory, blocks: seq<int>, brk: int)
    requires forall i :: 0 <= i < |blocks| ==> blocks[i] in mem
  {
    && 0 < |blocks| && blocks[0] == BASE && mem[BASE].size == 0
    && (forall i :: 1 <= i < |blocks| ==> 0 < mem[blocks[i]].size)
    && (forall i :: 0 <= i < |blocks| ==> blocks[i] + mem[blocks[i]].size <= brk)
    && (forall i :: 0 <= i < |blocks| ==> Mapped(mem, blocks[i], mem[blocks[i]].size))
  }

  /** `blocks` is the free list: `base` first, then by address with a gap after each block. */
  ghost predicate FreeList(mem: Memory, blocks: seq<int>, brk: int) {
    Links(mem, blocks) && Spaced(mem, blocks) && Extents(mem, blocks, brk)
  }

  /** The blocks in use carry their size, and overlap neither each other nor the free blocks. */
  ghost predicate LiveBlocks(mem: Memory, blocks: seq<int>, live: map<int, nat>, brk: int)
    requires forall i :: 0 <= i < |blocks| ==> blocks[i] in mem
  {
    && (forall a :: a in live ==> BASE < a && a in mem && mem[a].size == live[a] && 0 < live[a] && a + live[a] <= brk)
    && (forall a :: a in live ==> Mapped(mem, a, live[a]))
    && (forall a, b :: a in live && b in live && a < b ==> a + live[a] <= b)
    && (forall a, i :: a in live && 0 <= i < |blocks| ==>
          a + live[a] <= blocks[i] || (blocks[i] + mem[blocks[i]].size <= a && blocks[i] != a))
  }

  /** The units in use are the same in both memories. */
  ghost predicate Untouched(mem: Memory, mem': Memory, live: map<int, nat>) {
    forall a, u :: a in live && a <= u < a + live[a] && u in mem ==> u in mem' && mem'[u] == mem[u]
  }

  ghost function SumFree(mem: Memory, blocks: seq<int>): int
    requires forall i :: 0 <= i < |blocks| ==> blocks[i] in mem
  {
    if blocks == [] then 0
    else SumFree(mem, blocks[..|blocks| - 1]) + mem[blocks[|blocks| - 1]].size
  }

  ghost function SumOver(live: map<int, nat>, keys: set<int>): (n: nat)
    requires keys <= live.Keys
  {
    if exists a :: a in keys then
      var a :| a in keys;
      live[a] + SumOver(live, keys - {a})
    else 0
  }

  ghost function SumLive(live: map<int, nat>): (n: nat) {
    SumOver(live, live.Keys)
  }

  lemma {:induction false} SumOverWithout(live: map<int, nat>, keys: set<int>, a: int)
    requires keys <= live.Keys && a in keys
    ensures SumOver(live, keys) == live[a] + SumOver(live, keys - {a})
    decreases keys
  {
    var b :| b in keys && SumOver(live, keys) == live[b] + SumOver(live, keys - {b});
    if b != a {
      SumOverWithout(live, keys - {b}, a);
      SumOverWithout(live, keys - {a}, b);
      assert keys - {a} - {b} == keys - {b} - {a};
    }
  }

  lemma {:induction false} SumOverSame(live: map<int, nat>, live': map<int, nat>, keys: set<int>)
    requires keys <= live.Keys && keys <= live'.Keys
    requires forall a :: a in keys ==> live[a] == live'[a]
    ensures SumOver(live, keys) == SumOver(live', keys)
    decreases keys
  {
    if a :| a in keys {
      SumOverWithout(live, keys, a);
      SumOverWithout(live', keys, a);
      SumOverSame(live, live', keys - {a});
    }
  }

  lemma SumLiveAdd(live: map<int, nat>, a: int, n: nat)
    requires a !in live
    ensures SumLive(live[a := n]) == SumLive(live) + n
  {
    var live' := live[a := n];
    SumOverWithout(live', live'.Keys, a);
    assert live'.Keys - {a} == live.Keys;
    SumOverSame(live, live', live.Keys);
  }

  lemma SumLiveRemove(live: map<int, nat>, a: int)
    requires a in live
    ensures SumLive(live - {a}) == SumLive(live) - live[a]
  {
    assert (live - {a})[a := live[a]] == live;
    SumLiveAdd(live - {a}, a, live[a]);
  }

  /** Splitting the list splits its sum. */
  lemma {:induction false} SumFreeConcat(mem: Memory, xs: seq<int>, ys: seq<int>)
    requires forall i :: 0 <= i < |xs| ==> xs[i] in mem
    requires forall i :: 0 <= i < |ys| ==> ys[i] in mem
    ensures SumFree(mem, xs + ys) == SumFree(mem, xs) + SumFree(mem, ys)
  {
    if ys == [] {
      assert xs + ys == xs;
    } else {
      var m := |ys| - 1;
      SumFreeConcat(mem, xs, ys[..m]);
      assert (xs + ys)[..|xs + ys| - 1] == xs + ys[..m];
    }
  }

  lemma {:induction false} SumFreeSame(mem: Memory, mem': Memory, xs: seq<int>)
    requires forall i :: 0 <= i < |xs| ==> xs[i] in mem && xs[i] in mem' && mem'[xs[i]].size == mem[xs[i]].size
    ensures SumFree(mem', xs) == SumFree(mem, xs)
  {
    if xs != [] {
      SumFreeSame(mem, mem', xs[..|xs| - 1]);
    }
  }

  /** The free block after which `bp` belongs. */
  ghost function Slot(blocks: seq<int>, bp: int): (t: nat)
    requires 0 < |blocks| && blocks[0] < bp
    requires Sorted(blocks)
    ensures t < |blocks| && blocks[t] < bp && (t + 1 < |blocks| ==> bp <= blocks[t + 1])
  {
    if blocks[|blocks| - 1] < bp then |blocks| - 1 else Slot(blocks[..|blocks| - 1], bp)
  }

  // ----- the size computation

  /** The units malloc asks for: payload rounded up plus one header, in 32-bit arithmetic. */
  function NUnits(nbytes: nat): (n: nat)
    requires nbytes < WORD
    ensures 0 < n
  {
    (nbytes + UNIT - 1) % WORD / UNIT + 1
  }

  /** The block holds the requested bytes exactly when the request does not wrap. */
  lemma NUnitsEnough(nbytes: nat)
    requires nbytes < WORD
    ensures (NUnits(nbytes) - 1) * UNIT >= nbytes <==> nbytes <= WORD - UNIT
  {
  }

  /** The units morecore asks sbrk for. */
  function Grow(nu: nat): (n: nat) {
    if nu < NALLOC then NALLOC else nu
  }

  /** A 32-bit word read as a signed int, as sbrk's argument is. */
  function ToInt32(w: nat): (x: int) {
    var v := w % WORD;
    if v < WORD / 2 then v else v - WORD
  }

  /** sbrk receives the byte count that morecore meant exactly for these requests. */
  lemma SbrkArgument(nbytes: nat)
    requires nbytes < WORD
    ensures ToInt32(Grow(NUnits(nbytes)) * UNIT) == Grow(NUnits(nbytes)) * UNIT
       <==> nbytes <= WORD / 2 - 2 * UNIT || nbytes > WORD - UNIT
    ensures ToInt32(Grow(NUnits(nbytes)) * UNIT) <= 0 <==> WORD / 2 - 2 * UNIT < nbytes <= WORD - UNIT
  {
  }

  /** The requests for which it receives a count that is not positive. */
  predicate Wraps(nbytes: nat) { WORD / 2 - 2 * UNIT < nbytes <= WORD - UNIT }

  // ----- sbrk

  /** The process at a call of sbrk: its size in units, and whether the kernel has memory for it to grow. */
  datatype Process = Process(top: int, memory: bool)

  /** sbrk refuses to grow by `n` bytes. */
  predicate Refuses(os: Process, n: int) { os.top * UNIT + n >= KERNBASE || !os.memory }

  /** The new size, in units, after growing by `n <= 0` bytes: a size that wraps is larger, and nothing happens. */
  function CutAt(top: int, n: int): (t: int) { if top * UNIT + n >= 0 then (top * UNIT + n) / UNIT else top }

  function Below(mem: Memory, t: int): (r: Memory)
    ensures forall u :: u in r <==> u in mem && u < t
    ensures forall u :: u in r ==> r[u] == mem[u]
  {
    map u | u in mem && u < t :: mem[u]
  }

  // ----- changes of the free list

  ghost predicate Sorted(blocks: seq<int>) {
    forall i, j :: 0 <= i < j < |blocks| ==> blocks[i] < blocks[j]
  }

  /** Where the two-sided test of free's search loop succeeds: exactly at the slot. */
  lemma SearchTest(blocks: seq<int>, bp: int, k: nat)
    requires Sorted(blocks) && k < |blocks| && blocks[0] < bp && bp !in blocks
    ensures var p, next := blocks[k], blocks[Succ(k, |blocks|)];
      k == Slot(blocks, bp) <==> (bp > p && bp < next) || (p >= next && (bp > p || bp < next))
  {
    var t := Slot(blocks, bp);
    if k < t {
      assert blocks[k + 1] <= blocks[t];
    } else if t < k {
      assert bp < blocks[t + 1] <= blocks[k];
      assert k + 1 < |blocks| ==> blocks[k] < blocks[k + 1];
    }
  }

  /** Facts about a block in use and its neighbours on the free list. */
  ghost predicate Between(mem: Memory, blocks: seq<int>, bp: int, n: int, t: nat, hi: nat)
    requires forall i :: 0 <= i < |blocks| ==> blocks[i] in mem
  {
    && t < |blocks| && t < hi <= |blocks|
    && 0 < n && BASE < bp && blocks[t] < bp && blocks[t] + mem[blocks[t]].size <= bp
    && (hi < |blocks| ==> bp + n < blocks[hi])
  }

  /** The pointer that the block before index `hi` carries. */
  function Follow(blocks: seq<int>, hi: nat): int
    requires 0 < |blocks|
  {
    if hi < |blocks| then blocks[hi] else blocks[0]
  }

  /** The list with `mid` in place of everything strictly between indices `t` and `hi`. */
  function Splice(blocks: seq<int>, t: nat, mid: seq<int>, hi: nat): (r: seq<int>)
    requires t < hi <= |blocks|
    ensures |r| == t + 1 + |mid| + (|blocks| - hi)
    ensures forall i :: 0 <= i <= t ==> r[i] == blocks[i]
    ensures forall i :: t + 1 <= i < t + 1 + |mid| ==> r[i] == mid[i - t - 1]
    ensures forall i :: t + 1 + |mid| <= i < |r| ==> r[i] == blocks[i - t - 1 - |mid| + hi]
  {
    blocks[..t + 1] + mid + blocks[hi..]
  }

  lemma LinkLinks(mem: Memory, blocks: seq<int>, bp: int, n: int, t: nat, hi: nat, mem': Memory)
    requires Links(mem, blocks) && t < hi <= |blocks| && bp !in blocks
    requires forall i, j :: 0 <= i < j < |blocks| ==> blocks[i] < blocks[j]
    requires mem' == mem[bp := Header(Follow(blocks, hi), n)][blocks[t] := Header(bp, mem[blocks[t]].size)]
    ensures Links(mem', Splice(blocks, t, [bp], hi))
  {
    var bs := Splice(blocks, t, [bp], hi);
    forall i | 0 <= i < |bs| ensures LinkAt(mem', bs, i) {
      if i < t {
        assert LinkAt(mem, blocks, i);
      } else if i > t + 1 {
        var j := i - t - 2 + hi;
        assert LinkAt(mem, blocks, j) && bs[i] == blocks[j];
      }
    }
  }

  lemma LinkSpaced(mem: Memory, blocks: seq<int>, bp: int, n: int, t: nat, hi: nat, mem': Memory)
    requires forall i :: 0 <= i < |blocks| ==> blocks[i] in mem
    requires Spaced(mem, blocks) && Between(mem, blocks, bp, n, t, hi) && bp !in blocks
    requires blocks[t] + mem[blocks[t]].size < bp
    requires forall i :: 0 <= i < |blocks| ==> 0 <= mem[blocks[i]].size
    requires mem' == mem[bp := Header(Follow(blocks, hi), n)][blocks[t] := Header(bp, mem[blocks[t]].size)]
    ensures forall i :: 0 <= i < |Splice(blocks, t, [bp], hi)| ==> Splice(blocks, t, [bp], hi)[i] in mem'
    ensures Spaced(mem', Splice(blocks, t, [bp], hi))
  {
    var bs := Splice(blocks, t, [bp], hi);
    assert forall i :: 0 <= i < |blocks| ==> mem'[blocks[i]].size == mem[blocks[i]].size;
    forall i, j | 0 <= i < j < |bs| ensures bs[i] + mem'[bs[i]].size < bs[j] {
      if i == t + 1 {
        assert bs[j] == blocks[j - t - 2 + hi];
      } else if j == t + 1 {
        assert i < t ==> blocks[i] + mem[blocks[i]].size < blocks[t];
      }
    }
  }

  lemma LinkExtents(mem: Memory, blocks: seq<int>, brk: int, bp: int, n: int, t: nat, hi: nat, mem': Memory)
    requires forall i :: 0 <= i < |blocks| ==> blocks[i] in mem
    requires Extents(mem, blocks, brk) && t < hi <= |blocks| && bp !in blocks
    requires 0 < n && bp + n <= brk && Mapped(mem, bp, n)
    requires mem' == mem[bp := Header(Follow(blocks, hi), n)][blocks[t] := Header(bp, mem[blocks[t]].size)]
    ensures forall i :: 0 <= i < |Splice(blocks, t, [bp], hi)| ==> Splice(blocks, t, [bp], hi)[i] in mem'
    ensures Extents(mem', Splice(blocks, t, [bp], hi), brk)
  {
    var bs := Splice(blocks, t, [bp], hi);
    assert forall i :: 0 <= i < |blocks| ==> mem'[blocks[i]].size == mem[blocks[i]].size;
    forall i | 0 <= i < |bs| ensures Mapped(mem', bs[i], mem'[bs[i]].size) {
      assert Mapped(mem, bs[i], mem'[bs[i]].size);
    }
  }

  lemma MergeLinks(mem: Memory, blocks: seq<int>, bp: int, n: int, t: nat, hi: nat, mem': Memory)
    requires Links(mem, blocks) && t < hi <= |blocks| && bp !in blocks
    requires forall i, j :: 0 <= i < j < |blocks| ==> blocks[i] < blocks[j]
    requires mem' == mem[bp := Header(Follow(blocks, hi), n)][blocks[t] := Header(Follow(blocks, hi), mem[blocks[t]].size + n)]
    ensures Links(mem', Splice(blocks, t, [], hi))
  {
    var bs := Splice(blocks, t, [], hi);
    forall i | 0 <= i < |bs| ensures LinkAt(mem', bs, i) {
      if i < t {
        assert LinkAt(mem, blocks, i);
      } else if i > t {
        var j := i - t - 1 + hi;
        assert LinkAt(mem, blocks, j) && bs[i] == blocks[j];
      }
    }
  }

  lemma MergeSpaced(mem: Memory, blocks: seq<int>, bp: int, n: int, t: nat, hi: nat, mem': Memory)
    requires forall i :: 0 <= i < |blocks| ==> blocks[i] in mem
    requires Spaced(mem, blocks) && Between(mem, blocks, bp, n, t, hi) && bp !in blocks
    requires blocks[t] + mem[blocks[t]].size == bp
    requires forall i :: 0 <= i < |blocks| ==> 0 <= mem[blocks[i]].size
    requires mem' == mem[bp := Header(Follow(blocks, hi), n)][blocks[t] := Header(Follow(blocks, hi), mem[blocks[t]].size + n)]
    ensures forall i :: 0 <= i < |Splice(blocks, t, [], hi)| ==> Splice(blocks, t, [], hi)[i] in mem'
    ensures Spaced(mem', Splice(blocks, t, [], hi))
  {
    var bs := Splice(blocks, t, [], hi);
    assert forall i :: 0 <= i < |blocks| && i != t ==> mem'[blocks[i]].size == mem[blocks[i]].size;
    forall i, j | 0 <= i < j < |bs| ensures bs[i] + mem'[bs[i]].size < bs[j] {
      if i == t {
        assert bs[j] == blocks[j - t - 1 + hi];
      }
    }
  }

  lemma MergeExtents(mem: Memory, blocks: seq<int>, brk: int, bp: int, n: int, t: nat, hi: nat, mem': Memory)
    requires forall i :: 0 <= i < |blocks| ==> blocks[i] in mem
    requires forall i, j :: 0 <= i < j < |blocks| ==> blocks[i] < blocks[j]
    requires Extents(mem, blocks, brk) && 0 < t < hi <= |blocks| && bp !in blocks
    requires 0 < n && bp + n <= brk && Mapped(mem, bp, n) && blocks[t] + mem[blocks[t]].size == bp
    requires mem' == mem[bp := Header(Follow(blocks, hi), n)][blocks[t] := Header(Follow(blocks, hi), mem[blocks[t]].size + n)]
    ensures forall i :: 0 <= i < |Splice(blocks, t, [], hi)| ==> Splice(blocks, t, [], hi)[i] in mem'
    ensures Extents(mem', Splice(blocks, t, [], hi), brk)
  {
    var bs := Splice(blocks, t, [], hi);
    assert forall i :: 0 <= i < |blocks| && i != t ==> mem'[blocks[i]].size == mem[blocks[i]].size;
    forall i | 0 <= i < |bs| ensures Mapped(mem', bs[i], mem'[bs[i]].size) {
      if i != t {
        assert Mapped(mem, bs[i], mem'[bs[i]].size);
      } else {
        assert Mapped(mem, bs[t], mem[bs[t]].size) && Mapped(mem, bp, n);
      }
    }
  }

  /** No block in use overlaps the `n` units at `bp`. */
  ghost predicate Apart(live: map<int, nat>, bp: int, n: int) {
    forall a :: a in live ==> a + live[a] <= bp || bp + n <= a
  }

  lemma LinkLive(mem: Memory, blocks: seq<int>, live: map<int, nat>, brk: int, bp: int, n: int, t: nat, hi: nat, mem': Memory)
    requires forall i :: 0 <= i < |blocks| ==> blocks[i] in mem
    requires LiveBlocks(mem, blocks, live, brk) && Apart(live, bp, n) && 0 < n
    requires t < hi <= |blocks| && bp !in blocks && bp !in live && blocks[t] !in live
    requires mem' == mem[bp := Header(Follow(blocks, hi), n)][blocks[t] := Header(bp, mem[blocks[t]].size)]
    ensures forall i :: 0 <= i < |Splice(blocks, t, [bp], hi)| ==> Splice(blocks, t, [bp], hi)[i] in mem'
    ensures LiveBlocks(mem', Splice(blocks, t, [bp], hi), live, brk)
  {
    var bs := Splice(blocks, t, [bp], hi);
    assert forall i :: 0 <= i < |blocks| ==> mem'[blocks[i]].size == mem[blocks[i]].size;
    forall a | a in live ensures Mapped(mem', a, live[a]) {
      assert Mapped(mem, a, live[a]);
    }
  }

  lemma MergeLive(mem: Memory, blocks: seq<int>, live: map<int, nat>, brk: int, bp: int, n: int, t: nat, hi: nat, mem': Memory)
    requires forall i :: 0 <= i < |blocks| ==> blocks[i] in mem
    requires forall i, j :: 0 <= i < j < |blocks| ==> blocks[i] < blocks[j]
    requires LiveBlocks(mem, blocks, live, brk) && Apart(live, bp, n) && 0 < n
    requires t < hi <= |blocks| && bp !in blocks && bp !in live && blocks[t] !in live
    requires blocks[t] + mem[blocks[t]].size == bp
    requires mem' == mem[bp := Header(Follow(blocks, hi), n)][blocks[t] := Header(Follow(blocks, hi), mem[blocks[t]].size + n)]
    ensures forall i :: 0 <= i < |Splice(blocks, t, [], hi)| ==> Splice(blocks, t, [], hi)[i] in mem'
    ensures LiveBlocks(mem', Splice(blocks, t, [], hi), live, brk)
  {
    var bs := Splice(blocks, t, [], hi);
    assert forall i :: 0 <= i < |blocks| && i != t ==> mem'[blocks[i]].size == mem[blocks[i]].size;
    forall a | a in live ensures Mapped(mem', a, live[a]) {
      assert Mapped(mem, a, live[a]);
    }
  }

  /** The sum over a spliced list. */
  lemma SpliceSum(mem: Memory, blocks: seq<int>, t: nat, mid: seq<int>, hi: nat, mem': Memory)
    requires forall i :: 0 <= i < |blocks| ==> blocks[i] in mem && blocks[i] in mem'
    requires forall i :: 0 <= i < |mid| ==> mid[i] in mem'
    requires t < hi <= |blocks|
    requires forall i :: 0 <= i < |blocks| && i != t ==> mem'[blocks[i]].size == mem[blocks[i]].size
    ensures var bs := Splice(blocks, t, mid, hi);
      && (forall i :: 0 <= i < |bs| ==> bs[i] in mem')
      && SumFree(mem', bs) == SumFree(mem, blocks) - SumFree(mem, blocks[t + 1..hi]) + SumFree(mem', mid)
                              + mem'[blocks[t]].size - mem[blocks[t]].size
  {
    hide SumFree;
    var lo, x, cut, up := blocks[..t], [blocks[t]], blocks[t + 1..hi], blocks[hi..];
    var bs := Splice(blocks, t, mid, hi);
    SplitBlocks(blocks, t, hi);
    assert bs == lo + x + mid + up by {
      assert blocks[..t + 1] == lo + x;
    }
    forall i | 0 <= i < |bs| ensures bs[i] in mem' {
    }
    SumFreeParts(mem, lo, x, cut, up);
    SumFreeParts(mem', lo, x, mid, up);
    SumFreeSame(mem, mem', lo);
    SumFreeSame(mem, mem', up);
    SumFreeOne(mem, blocks[t]);
    SumFreeOne(mem', blocks[t]);
  }

  lemma SplitBlocks(blocks: seq<int>, t: nat, hi: nat)
    requires t < hi <= |blocks|
    ensures blocks == blocks[..t] + [blocks[t]] + blocks[t + 1..hi] + blocks[hi..]
  {
  }

  lemma SumFreeParts(mem: Memory, a: seq<int>, b: seq<int>, c: seq<int>, d: seq<int>)
    requires forall i :: 0 <= i < |a| ==> a[i] in mem
    requires forall i :: 0 <= i < |b| ==> b[i] in mem
    requires forall i :: 0 <= i < |c| ==> c[i] in mem
    requires forall i :: 0 <= i < |d| ==> d[i] in mem
    ensures SumFree(mem, a + b + c + d) == SumFree(mem, a) + SumFree(mem, b) + SumFree(mem, c) + SumFree(mem, d)
  {
    hide SumFree;
    SumFreeConcat(mem, a + b + c, d);
    SumFreeConcat(mem, a + b, c);
    SumFreeConcat(mem, a, b);
  }

  lemma SumFreeOne(mem: Memory, a: int)
    requires a in mem
    ensures SumFree(mem, [a]) == mem[a].size
  {
    assert [a][..0] == [];
  }

  // ----- the heap invariant and what free and malloc do to it

  ghost predicate HeapInv(mem: Memory, blocks: seq<int>, live: map<int, nat>, brk: int, obtained: nat) {
    && FreeList(mem, blocks, brk)
    && LiveBlocks(mem, blocks, live, brk)
    && SumFree(mem, blocks) + SumLive(live) == obtained
  }

  lemma Ordered(mem: Memory, blocks: seq<int>, brk: int)
    requires FreeList(mem, blocks, brk)
    ensures Sorted(blocks) && forall i :: 0 <= i < |blocks| ==> 0 <= mem[blocks[i]].size
  {
  }

  /** A block in use lies strictly between two neighbours on the free list. */
  lemma LiveSlot(mem: Memory, blocks: seq<int>, live: map<int, nat>, brk: int, bp: int)
    requires FreeList(mem, blocks, brk) && LiveBlocks(mem, blocks, live, brk) && bp in live
    ensures bp !in blocks && Sorted(blocks)
    ensures var t := Slot(blocks, bp);
      && blocks[t] !in live && blocks[t] + mem[blocks[t]].size <= bp
      && (t + 1 < |blocks| ==> bp + live[bp] <= blocks[t + 1])
      && (forall i :: t < i < |blocks| ==> bp < blocks[i])
    ensures Apart(live - {bp}, bp, live[bp])
  {
    hide LinkAt, Spaced, Mapped, Slot;
    Ordered(mem, blocks, brk);
    var t := Slot(blocks, bp);
    assert blocks[t] + mem[blocks[t]].size <= bp;
    if t + 1 < |blocks| {
      assert blocks[t + 1] != bp;
      assert bp + live[bp] <= blocks[t + 1];
    }
    assert forall i :: t < i < |blocks| ==> blocks[t + 1] <= blocks[i];
  }

  /** The state after free has found the slot: the first `if` of free. */
  ghost predicate Absorbed(mem: Memory, blocks: seq<int>, live: map<int, nat>, bp: int, t: nat, hi: nat, n: int)
    requires forall i :: 0 <= i < |blocks| ==> blocks[i] in mem
    requires bp in live
  {
    if t + 1 < |blocks| && bp + live[bp] == blocks[t + 1]
    then hi == t + 2 && n == live[bp] + mem[blocks[t + 1]].size
    else hi == t + 1 && n == live[bp]
  }

  lemma AbsorbUpper(mem: Memory, blocks: seq<int>, live: map<int, nat>, brk: int, bp: int, hi: nat, n: int)
    requires FreeList(mem, blocks, brk) && LiveBlocks(mem, blocks, live, brk) && bp in live
    requires Sorted(blocks) && Absorbed(mem, blocks, live, bp, Slot(blocks, bp), hi, n)
    ensures Between(mem, blocks, bp, n, Slot(blocks, bp), hi)
    ensures bp + n <= brk && Mapped(mem, bp, n) && Apart(live - {bp}, bp, n)
  {
    LiveSlot(mem, blocks, live, brk, bp);
    Ordered(mem, blocks, brk);
    assert Mapped(mem, bp, live[bp]);
    var t := Slot(blocks, bp);
    if hi == t + 2 {
      assert Mapped(mem, blocks[t + 1], mem[blocks[t + 1]].size);
    }
  }

  lemma LessLive(mem: Memory, blocks: seq<int>, live: map<int, nat>, brk: int, bp: int)
    requires forall i :: 0 <= i < |blocks| ==> blocks[i] in mem
    requires LiveBlocks(mem, blocks, live, brk)
    ensures LiveBlocks(mem, blocks, live - {bp}, brk)
  {
  }

  /** free, when the freed block does not touch its lower neighbour. */
  lemma FreeLinks(mem: Memory, blocks: seq<int>, live: map<int, nat>, brk: int, obtained: nat, bp: int, hi: nat, n: int, mem': Memory)
    requires HeapInv(mem, blocks, live, brk, obtained) && bp in live && Sorted(blocks)
    requires var t := Slot(blocks, bp);
      && Absorbed(mem, blocks, live, bp, t, hi, n)
      && blocks[t] + mem[blocks[t]].size != bp
      && hi <= |blocks|
      && mem' == mem[bp := Header(Follow(blocks, hi), n)][blocks[t] := Header(bp, mem[blocks[t]].size)]
    ensures var t := Slot(blocks, bp);
      && t < hi && HeapInv(mem', Splice(blocks, t, [bp], hi), live - {bp}, brk, obtained)
    ensures Untouched(mem, mem', live - {bp})
  {
    hide LinkAt, Spaced, Extents, SumFree, SumLive, Mapped, Slot, Splice;
    var t := Slot(blocks, bp);
    Ordered(mem, blocks, brk);
    LiveSlot(mem, blocks, live, brk, bp);
    AbsorbUpper(mem, blocks, live, brk, bp, hi, n);
    LessLive(mem, blocks, live, brk, bp);
    LinkLinks(mem, blocks, bp, n, t, hi, mem');
    LinkSpaced(mem, blocks, bp, n, t, hi, mem');
    LinkExtents(mem, blocks, brk, bp, n, t, hi, mem');
    LinkLive(mem, blocks, live - {bp}, brk, bp, n, t, hi, mem');
    FreeSum(mem, blocks, live, bp, t, hi, n, [bp], mem');
  }

  /** free, when the freed block continues its lower neighbour. */
  lemma FreeMerges(mem: Memory, blocks: seq<int>, live: map<int, nat>, brk: int, obtained: nat, bp: int, hi: nat, n: int, mem': Memory)
    requires HeapInv(mem, blocks, live, brk, obtained) && bp in live && Sorted(blocks)
    requires var t := Slot(blocks, bp);
      && Absorbed(mem, blocks, live, bp, t, hi, n)
      && blocks[t] + mem[blocks[t]].size == bp
      && hi <= |blocks|
      && mem' == mem[bp := Header(Follow(blocks, hi), n)][blocks[t] := Header(Follow(blocks, hi), mem[blocks[t]].size + n)]
    ensures var t := Slot(blocks, bp);
      && t < hi && HeapInv(mem', Splice(blocks, t, [], hi), live - {bp}, brk, obtained)
    ensures Untouched(mem, mem', live - {bp})
  {
    hide LinkAt, Spaced, SumFree, SumLive, Mapped, Slot, Splice;
    var t := Slot(blocks, bp);
    Ordered(mem, blocks, brk);
    LiveSlot(mem, blocks, live, brk, bp);
    AbsorbUpper(mem, blocks, live, brk, bp, hi, n);
    LessLive(mem, blocks, live, brk, bp);
    MergeLinks(mem, blocks, bp, n, t, hi, mem');
    MergeSpaced(mem, blocks, bp, n, t, hi, mem');
    MergeExtents(mem, blocks, brk, bp, n, t, hi, mem');
    MergeLive(mem, blocks, live - {bp}, brk, bp, n, t, hi, mem');
    FreeSum(mem, blocks, live, bp, t, hi, n, [], mem');
  }

  /** Freeing moves exactly the block's units from the live to the free side. */
  lemma FreeSum(mem: Memory, blocks: seq<int>, live: map<int, nat>, bp: int, t: nat, hi: nat, n: int, mid: seq<int>, mem': Memory)
    requires forall i :: 0 <= i < |blocks| ==> blocks[i] in mem && blocks[i] in mem'
    requires bp in live && t < hi <= |blocks| && Absorbed(mem, blocks, live, bp, t, hi, n)
    requires forall i :: 0 <= i < |blocks| && i != t ==> mem'[blocks[i]].size == mem[blocks[i]].size
    requires bp in mem' && mem'[bp].size == n
    requires (mid == [bp] && mem'[blocks[t]].size == mem[blocks[t]].size)
          || (mid == [] && mem'[blocks[t]].size == mem[blocks[t]].size + n)
    ensures var bs := Splice(blocks, t, mid, hi);
      && (forall i :: 0 <= i < |bs| ==> bs[i] in mem')
      && SumFree(mem', bs) + SumLive(live - {bp}) == SumFree(mem, blocks) + SumLive(live)
  {
    hide Splice, SumLive;
    SpliceSum(mem, blocks, t, mid, hi, mem');
    SumLiveRemove(live, bp);
    SumFreeOne(mem', bp);
    if hi == t + 2 {
      assert blocks[t + 1..hi] == [blocks[t + 1]];
      SumFreeOne(mem, blocks[t + 1]);
    } else {
      assert blocks[t + 1..hi] == [];
    }
  }

  /** malloc, exact fit: the block at index `k` leaves the list. */
  lemma TakeWhole(mem: Memory, blocks: seq<int>, live: map<int, nat>, brk: int, obtained: nat, k: nat, n: nat, mem': Memory)
    requires HeapInv(mem, blocks, live, brk, obtained) && 0 < k < |blocks| && mem[blocks[k]].size == n > 0
    requires mem' == mem[blocks[k - 1] := Header(mem[blocks[k]].ptr, mem[blocks[k - 1]].size)]
    ensures blocks[k] !in live
    ensures HeapInv(mem', Splice(blocks, k - 1, [], k + 1), live[blocks[k] := n], brk, obtained)
    ensures Untouched(mem, mem', live)
  {
    hide LinkAt, SumFree, SumLive, Mapped, Splice;
    Ordered(mem, blocks, brk);
    var bs := Splice(blocks, k - 1, [], k + 1);
    TakeLinks(mem, blocks, k, mem');
    TakeSpaced(mem, blocks, brk, k, bs, mem');
    TakeLive(mem, blocks, live, brk, k, bs, mem', live[blocks[k] := n]);
    SpliceSum(mem, blocks, k - 1, [], k + 1, mem');
    assert blocks[k..k + 1] == [blocks[k]];
    SumFreeOne(mem, blocks[k]);
    SumFreeNone(mem');
    assert blocks[k] !in live;
    SumLiveAdd(live, blocks[k], n);
  }

  lemma SumFreeNone(mem: Memory)
    ensures SumFree(mem, []) == 0
  {
  }

  lemma TakeLinks(mem: Memory, blocks: seq<int>, k: nat, mem': Memory)
    requires Links(mem, blocks) && Sorted(blocks) && 0 < k < |blocks|
    requires mem' == mem[blocks[k - 1] := Header(mem[blocks[k]].ptr, mem[blocks[k - 1]].size)]
    ensures Links(mem', Splice(blocks, k - 1, [], k + 1))
  {
    var bs := Splice(blocks, k - 1, [], k + 1);
    assert LinkAt(mem, blocks, k);
    forall i | 0 <= i < |bs| ensures LinkAt(mem', bs, i) {
      if i < k - 1 {
        assert LinkAt(mem, blocks, i);
      } else if i > k - 1 {
        assert LinkAt(mem, blocks, i + 1) && bs[i] == blocks[i + 1];
      }
    }
  }

  /** `bs` is `blocks` without index `k`; no size has changed. */
  ghost predicate Dropped(mem: Memory, mem': Memory, blocks: seq<int>, k: nat, bs: seq<int>) {
    && 0 < k < |blocks| && |bs| == |blocks| - 1
    && (forall i :: 0 <= i < |bs| ==> bs[i] == blocks[if i < k then i else i + 1])
    && (forall i :: 0 <= i < |blocks| ==> blocks[i] in mem && blocks[i] in mem' && mem'[blocks[i]].size == mem[blocks[i]].size)
    && mem.Keys <= mem'.Keys
  }

  lemma TakeSpaced(mem: Memory, blocks: seq<int>, brk: int, k: nat, bs: seq<int>, mem': Memory)
    requires FreeList(mem, blocks, brk) && Dropped(mem, mem', blocks, k, bs)
    ensures (forall i :: 0 <= i < |bs| ==> bs[i] in mem') && Spaced(mem', bs) && Extents(mem', bs, brk)
  {
    hide LinkAt, Mapped;
    forall i | 0 <= i < |bs| ensures Mapped(mem', bs[i], mem'[bs[i]].size) {
      MappedGrows(mem, mem', bs[i], mem[bs[i]].size);
    }
  }

  lemma TakeLive(mem: Memory, blocks: seq<int>, live: map<int, nat>, brk: int, k: nat, bs: seq<int>, mem': Memory, live': map<int, nat>)
    requires FreeList(mem, blocks, brk) && LiveBlocks(mem, blocks, live, brk) && Sorted(blocks)
    requires Dropped(mem, mem', blocks, k, bs) && 0 < mem[blocks[k]].size
    requires live' == live[blocks[k] := mem[blocks[k]].size]
    requires forall a :: a in live ==> a in mem' && mem'[a] == mem[a]
    ensures (forall i :: 0 <= i < |bs| ==> bs[i] in mem') && LiveBlocks(mem', bs, live', brk)
  {
    hide LinkAt, Mapped;
    forall a | a in live' ensures Mapped(mem', a, live'[a]) {
      MappedGrows(mem, mem', a, live'[a]);
    }
    forall a, i | a in live' && 0 <= i < |bs|
      ensures a + live'[a] <= bs[i] || (bs[i] + mem'[bs[i]].size <= a && bs[i] != a)
    {
      var j := if i < k then i else i + 1;
      assert bs[i] == blocks[j];
    }
  }

  lemma MappedGrows(mem: Memory, mem': Memory, a: int, m: int)
    requires Mapped(mem, a, m) && mem.Keys <= mem'.Keys
    ensures Mapped(mem', a, m)
  {
  }

  /** malloc, larger block: the last `n` units of the block at index `k` are split off. */
  lemma TakeTail(mem: Memory, blocks: seq<int>, live: map<int, nat>, brk: int, obtained: nat, k: nat, n: nat, mem': Memory)
    requires HeapInv(mem, blocks, live, brk, obtained) && 0 < k < |blocks| && 0 < n < mem[blocks[k]].size
    requires blocks[k] + (mem[blocks[k]].size - n) in mem
    requires var m := mem[blocks[k]].size - n;
      mem' == mem[blocks[k] := Header(mem[blocks[k]].ptr, m)][blocks[k] + m := Header(mem[blocks[k] + m].ptr, n)]
    ensures var a := blocks[k] + (mem[blocks[k]].size - n);
      a !in live && HeapInv(mem', blocks, live[a := n], brk, obtained)
    ensures Untouched(mem, mem', live)
  {
    hide LinkAt, SumFree, SumLive, Mapped, Spaced, Extents, LiveBlocks;
    Ordered(mem, blocks, brk);
    var a := blocks[k] + (mem[blocks[k]].size - n);
    TailIsNew(mem, blocks, live, brk, k, a);
    TailLinks(mem, blocks, k, mem');
    TailExtents(mem, blocks, brk, k, n, mem');
    TailUntouched(mem, blocks, live, brk, k, a, mem');
    LiveHeaders(mem, blocks, live, brk, mem');
    TailLive(mem, blocks, live, brk, k, n, mem', live[a := n]);
    TailSum(mem, blocks, k, n, mem');
    SumLiveAdd(live, a, n);
  }

  lemma LiveHeaders(mem: Memory, blocks: seq<int>, live: map<int, nat>, brk: int, mem': Memory)
    requires forall i :: 0 <= i < |blocks| ==> blocks[i] in mem
    requires LiveBlocks(mem, blocks, live, brk) && Untouched(mem, mem', live)
    ensures forall b :: b in live ==> b in mem && b in mem' && mem'[b] == mem[b]
  {
  }

  /** The block at index `k` has lost its last `n` units; every other size is as before. */
  ghost predicate Shortened(mem: Memory, mem': Memory, blocks: seq<int>, k: nat, n: nat) {
    && k < |blocks| && mem.Keys <= mem'.Keys
    && (forall i :: 0 <= i < |blocks| ==> blocks[i] in mem)
    && (forall i :: 0 <= i < |blocks| && i != k ==> mem'[blocks[i]].size == mem[blocks[i]].size)
    && 0 < n < mem[blocks[k]].size && mem'[blocks[k]].size == mem[blocks[k]].size - n
  }

  lemma TailExtents(mem: Memory, blocks: seq<int>, brk: int, k: nat, n: nat, mem': Memory)
    requires FreeList(mem, blocks, brk) && 0 < k && Shortened(mem, mem', blocks, k, n)
    ensures Spaced(mem', blocks) && Extents(mem', blocks, brk)
  {
    hide LinkAt, Mapped;
    forall i | 0 <= i < |blocks| ensures Mapped(mem', blocks[i], mem'[blocks[i]].size) {
      if i == k {
        TailMapped(mem, mem', blocks[k], mem[blocks[k]].size, n);
      } else {
        MappedGrows(mem, mem', blocks[i], mem[blocks[i]].size);
      }
    }
  }

  lemma TailLive(mem: Memory, blocks: seq<int>, live: map<int, nat>, brk: int, k: nat, n: nat, mem': Memory, live': map<int, nat>)
    requires FreeList(mem, blocks, brk) && LiveBlocks(mem, blocks, live, brk) && Sorted(blocks)
    requires 0 < k && Shortened(mem, mem', blocks, k, n)
    requires var a := blocks[k] + (mem[blocks[k]].size - n);
      && a !in live && a in mem' && mem'[a].size == n && live' == live[a := n]
    requires forall b :: b in live ==> b in mem' && mem'[b].size == mem[b].size
    ensures LiveBlocks(mem', blocks, live', brk)
  {
    hide LinkAt, Mapped;
    var a := blocks[k] + (mem[blocks[k]].size - n);
    assert BASE < a by { assert blocks[0] < blocks[k]; }
    forall b | b in live' ensures Mapped(mem', b, live'[b]) {
      if b == a {
        TailMapped(mem, mem', blocks[k], mem[blocks[k]].size, n);
      } else {
        MappedGrows(mem, mem', b, live[b]);
      }
    }
  }

  lemma TailUntouched(mem: Memory, blocks: seq<int>, live: map<int, nat>, brk: int, k: nat, a: int, mem': Memory)
    requires FreeList(mem, blocks, brk) && LiveBlocks(mem, blocks, live, brk)
    requires k < |blocks| && blocks[k] < a < blocks[k] + mem[blocks[k]].size
    requires mem.Keys <= mem'.Keys && forall u :: u in mem && u != blocks[k] && u != a ==> mem'[u] == mem[u]
    ensures Untouched(mem, mem', live)
  {
    hide LinkAt, Mapped, Spaced;
  }

  lemma TailIsNew(mem: Memory, blocks: seq<int>, live: map<int, nat>, brk: int, k: nat, a: int)
    requires FreeList(mem, blocks, brk) && LiveBlocks(mem, blocks, live, brk) && Sorted(blocks)
    requires k < |blocks| && blocks[k] < a < blocks[k] + mem[blocks[k]].size
    ensures a !in blocks && a !in live
  {
    hide LinkAt, Mapped;
  }

  lemma TailLinks(mem: Memory, blocks: seq<int>, k: nat, mem': Memory)
    requires Links(mem, blocks) && k < |blocks|
    requires forall i :: 0 <= i < |blocks| ==> blocks[i] in mem' && mem'[blocks[i]].ptr == mem[blocks[i]].ptr
    ensures Links(mem', blocks)
  {
    forall i | 0 <= i < |blocks| ensures LinkAt(mem', blocks, i) {
      assert LinkAt(mem, blocks, i);
    }
  }

  lemma TailMapped(mem: Memory, mem': Memory, a: int, size: int, n: int)
    requires Mapped(mem, a, size) && mem.Keys <= mem'.Keys && 0 < n < size
    ensures Mapped(mem', a, size - n) && Mapped(mem', a + (size - n), n)
  {
  }

  lemma TailSum(mem: Memory, blocks: seq<int>, k: nat, n: int, mem': Memory)
    requires forall i :: 0 <= i < |blocks| ==> blocks[i] in mem && blocks[i] in mem'
    requires forall i :: 0 <= i < |blocks| && i != k ==> mem'[blocks[i]].size == mem[blocks[i]].size
    requires k < |blocks| && mem'[blocks[k]].size == mem[blocks[k]].size - n
    ensures SumFree(mem', blocks) == SumFree(mem, blocks) - n
  {
    SpliceSum(mem, blocks, k, [], k + 1, mem');
    assert Splice(blocks, k, [], k + 1) == blocks;
    assert blocks[k + 1..k + 1] == [];
  }

  /** The zero-filled units that sbrk delivers. */
  function Fresh(hp: int, n: nat): (r: Memory)
    ensures forall u :: u in r <==> hp <= u < hp + n
    ensures forall u :: u in r ==> r[u] == Header(0, 0)
  {
    if n == 0 then map[] else Fresh(hp, n - 1)[hp + n - 1 := Header(0, 0)]
  }

  /** morecore: fresh units above `brk` count as one block in use until they are freed into the list. */
  lemma GrowHeap(mem: Memory, blocks: seq<int>, live: map<int, nat>, brk: int, obtained: nat, hp: int, n: nat, mem': Memory)
    requires HeapInv(mem, blocks, live, brk, obtained) && BASE < brk <= hp && 0 < n
    requires mem' == (mem + Fresh(hp, n))[hp := Header(0, n)]
    ensures hp !in live && HeapInv(mem', blocks, live[hp := n], hp + n, obtained + n)
    ensures Untouched(mem, mem', live)
  {
    hide LinkAt, SumFree, SumLive, Mapped, Spaced;
    assert forall u :: u in mem && u < hp ==> u in mem' && mem'[u] == mem[u];
    BelowBrk(mem, blocks, brk);
    GrowFree(mem, blocks, brk, mem', hp + n);
    SumFreeSame(mem, mem', blocks);
    assert hp !in live;
    SumLiveAdd(live, hp, n);
    FreshMapped(mem', hp, n);
    GrowLive(mem, blocks, live, brk, hp, n, mem', live[hp := n]);
  }

  lemma BelowBrk(mem: Memory, blocks: seq<int>, brk: int)
    requires FreeList(mem, blocks, brk) && BASE < brk
    ensures forall i :: 0 <= i < |blocks| ==> blocks[i] < brk
  {
  }

  lemma GrowFree(mem: Memory, blocks: seq<int>, brk: int, mem': Memory, brk': int)
    requires FreeList(mem, blocks, brk) && brk <= brk' && mem.Keys <= mem'.Keys
    requires forall i :: 0 <= i < |blocks| ==> mem'[blocks[i]] == mem[blocks[i]]
    ensures FreeList(mem', blocks, brk')
  {
    hide LinkAt, Mapped;
    TailLinks(mem, blocks, 0, mem');
    forall i | 0 <= i < |blocks| ensures Mapped(mem', blocks[i], mem'[blocks[i]].size) {
      MappedGrows(mem, mem', blocks[i], mem[blocks[i]].size);
    }
  }

  lemma GrowLive(mem: Memory, blocks: seq<int>, live: map<int, nat>, brk: int, hp: int, n: nat, mem': Memory, live': map<int, nat>)
    requires forall i :: 0 <= i < |blocks| ==> blocks[i] in mem && blocks[i] < hp && blocks[i] + mem[blocks[i]].size <= brk
    requires LiveBlocks(mem, blocks, live, brk) && BASE < brk <= hp && 0 < n && live' == live[hp := n]
    requires forall u :: u in mem && u < hp ==> u in mem' && mem'[u] == mem[u]
    requires hp in mem' && mem'[hp].size == n && Mapped(mem', hp, n)
    requires mem.Keys <= mem'.Keys
    ensures forall i :: 0 <= i < |blocks| ==> blocks[i] in mem'
    ensures LiveBlocks(mem', blocks, live', hp + n)
  {
    hide Mapped;
    forall a | a in live' ensures Mapped(mem', a, live'[a]) {
      if a != hp { MappedGrows(mem, mem', a, live[a]); }
    }
  }

  lemma FreshMapped(mem: Memory, hp: int, n: nat)
    requires forall u :: hp <= u < hp + n ==> u in mem.Keys
    ensures Mapped(mem, hp, n)
  {
  }

  lemma DistStep(f: nat, k: nat, n: nat)
    requires f < n && k < n && k != f
    ensures Dist(Succ(f, n), Succ(k, n), n) == Dist(Succ(f, n), k, n) + 1
  {
  }

  class Allocator {
    var mem: Memory
    var freep: int
    var brk: int                   // the end of the memory received from sbrk
    ghost var blocks: seq<int>
    ghost var live: map<int, nat>
    ghost var obtained: nat

    ghost predicate Valid()
      reads this
    {
      && BASE < brk && Within(mem, brk)
      && if freep == NULL then blocks == [] && live == map[] && obtained == 0
         else freep in blocks && HeapInv(mem, blocks, live, brk, obtained)
    }

    /** A program that has not called malloc yet. */
    constructor (end: int)
      requires BASE < end
      ensures Valid() && live == map[] && obtained == 0 && brk == end
    {
      mem, freep, brk := map[], NULL, end;
      blocks, live, obtained := [], map[], 0;
    }

    /**
      free.  The block's units end up inside one free block (`home`), nothing else in use is
      touched, and the list is again sorted, circular and fully coalesced.
      */
    method Free(ap: int) returns (ghost home: nat)
      requires Valid() && ap - 1 in live
      modifies this
      ensures Valid() && freep != NULL
      ensures live == old(live) - {ap - 1} && obtained == old(obtained) && brk == old(brk)
      ensures Untouched(old(mem), mem, live)
      ensures home < |blocks|
        && blocks[home] <= ap - 1 && ap - 1 + old(live)[ap - 1] <= blocks[home] + mem[blocks[home]].size
    {
      hide HeapInv, Slot;
      var bp := ap - 1;
      LiveFacts(mem, blocks, live, brk, obtained, bp);
      ghost var n, t := |blocks|, Slot(blocks, bp);
      var p := freep;
      ghost var k: nat :| k < n && blocks[k] == p;
      FollowRing(mem, blocks, live, brk, obtained, k);
      SearchTest(blocks, bp, k);
      while !(bp > p && bp < mem[p].ptr)
        invariant k < n && p == blocks[k] && p in mem && mem[p].ptr == blocks[Succ(k, n)]
        invariant k == t <==> (bp > p && bp < mem[p].ptr) || (p >= mem[p].ptr && (bp > p || bp < mem[p].ptr))
        decreases Dist(k, t, n)
        modifies {}
      {
        if p >= mem[p].ptr && (bp > p || bp < mem[p].ptr) {
          break;
        }
        p := mem[p].ptr;
        k := Succ(k, n);
        FollowRing(mem, blocks, live, brk, obtained, k);
        SearchTest(blocks, bp, k);
      }
      assert k == t;
      home := FreeAt(bp, p);
    }

    /** The linking part of free, once the search has found the slot `p`. */
    method FreeAt(bp: int, p: int) returns (ghost home: nat)
      requires Valid() && freep != NULL && bp in live && Sorted(blocks) && 0 < |blocks| && blocks[0] < bp
      requires p == blocks[Slot(blocks, bp)]
      modifies this
      ensures Valid() && freep != NULL
      ensures live == old(live) - {bp} && obtained == old(obtained) && brk == old(brk)
      ensures Untouched(old(mem), mem, live)
      ensures home < |blocks|
        && blocks[home] <= bp && bp + old(live)[bp] <= blocks[home] + mem[blocks[home]].size
    {
      hide HeapInv, Slot, Sorted, Splice, Untouched;
      ghost var t := Slot(blocks, bp);
      UpperFacts(mem, blocks, live, brk, obtained, bp);
      ghost var hi := if mem[p].ptr == bp + live[bp] then t + 2 else t + 1;
      ghost var mem0, size := mem, live[bp];
      if bp + mem[bp].size == mem[p].ptr {
        mem := mem[bp := Header(mem[mem[p].ptr].ptr, mem[bp].size + mem[mem[p].ptr].size)];
      } else {
        mem := mem[bp := mem[bp].(ptr := mem[p].ptr)];
      }
      ghost var n := mem[bp].size;
      assert mem == mem0[bp := Header(Follow(blocks, hi), n)];
      assert Absorbed(mem0, blocks, live, bp, t, hi, n) && hi <= |blocks| && n >= size;
      if p + mem[p].size == bp {
        mem := mem[p := Header(mem[bp].ptr, mem[p].size + mem[bp].size)];
        FreeMerges(mem0, blocks, live, brk, obtained, bp, hi, n, mem);
        blocks := Splice(blocks, t, [], hi);
        home := t;
        assert blocks[t] == p && p < bp;
      } else {
        mem := mem[p := mem[p].(ptr := bp)];
        FreeLinks(mem0, blocks, live, brk, obtained, bp, hi, n, mem);
        blocks := Splice(blocks, t, [bp], hi);
        home := t + 1;
        assert blocks[t] == p && blocks[t + 1] == bp;
      }
      live := live - {bp};
      freep := p;
    }

    /**
      sbrk, with growproc.  `n` is the byte count as the kernel sees it, a signed int.  Growing
      delivers fresh units at the old end; a count that is not positive delivers none, and
      may take units away.
      */
    method Sbrk(n: int, os: Process) returns (r: Option<int>)
      requires brk <= os.top && n % UNIT == 0 && Within(mem, brk)
      modifies this`mem
      ensures n > 0 ==> (r.None? <==> Refuses(os, n)) && mem == if r.None? then old(mem) else old(mem) + Fresh(os.top, n / UNIT)
      ensures n <= 0 ==> mem == Below(old(mem), CutAt(os.top, n))
      ensures r.Some? ==> r.value == os.top
    {
      hide Fresh;
      if n > 0 {
        if os.top * UNIT + n >= KERNBASE || !os.memory {
          return None;
        }
        mem := mem + Fresh(os.top, n / UNIT);
      } else if n < 0 && os.top * UNIT + n >= 0 {
        var sz := (os.top * UNIT + n) / UNIT;
        mem := Below(mem, sz);
        if sz == 0 {
          return None;
        }
      } else {
        assert Below(mem, os.top) == mem;
        assert n == 0 ==> CutAt(os.top, n) == os.top;
      }
      return Some(os.top);
    }

    /**
      morecore.  `wild` says that sbrk was asked for a count that is not positive: it delivered
      nothing, the unit at which the new block's header would be stored is not in memory, and
      what follows in the source is not modelled.
      */
    method Morecore(nunits: nat, os: Process) returns (p: int, wild: bool, ghost home: nat)
      requires Valid() && freep != NULL && 0 < nunits && brk <= os.top
      requires ToInt32(Grow(nunits) * UNIT) == Grow(nunits) * UNIT || ToInt32(Grow(nunits) * UNIT) <= 0
      modifies this
      ensures wild <==> ToInt32(Grow(nunits) * UNIT) <= 0
      ensures wild ==> mem == Below(old(mem), CutAt(os.top, ToInt32(Grow(nunits) * UNIT))) && os.top !in mem
      ensures !wild ==> Valid() && freep != NULL && live == old(live) && Untouched(old(mem), mem, live)
      ensures !wild ==> (p == NULL <==> Refuses(os, Grow(nunits) * UNIT))
      ensures !wild && p == NULL ==>
        mem == old(mem) && blocks == old(blocks) && obtained == old(obtained) && brk == old(brk) && freep == old(freep)
      ensures !wild && p != NULL ==>
        && p == freep && obtained == old(obtained) + Grow(nunits) && brk == os.top + Grow(nunits)
        && home < |blocks| && blocks[home] in mem && nunits <= mem[blocks[home]].size
    {
      hide HeapInv, Fresh, Untouched;
      home := 0;
      var nu := nunits;
      if nu < NALLOC {
        nu := NALLOC;
      }
      ghost var live0, mem0 := live, mem;
      var n := ToInt32(nu * UNIT);
      WholeUnits(nu);
      var r := Sbrk(n, os);
      if n <= 0 {
        CutBelow(os.top, n);
        return NULL, true, 0;
      }
      SameMemory(mem, live);
      if r.None? {
        return NULL, false, 0;
      }
      var hp := r.value;
      GrowHeap(mem0, blocks, live, brk, obtained, hp, nu, (mem0 + Fresh(hp, nu))[hp := Header(0, nu)]);
      mem := mem[hp := mem[hp].(size := nu)];
      brk := hp + nu;
      live, obtained := live[hp := nu], obtained + nu;
      ghost var mem1 := mem;
      home := Free(hp + 1);
      InMemory(mem, blocks, live, brk, obtained);
      assert live == live0;
      UntouchedChain(mem0, mem1, mem, live0);
      return freep, false, home;
    }

    /** The body of malloc's `if` once a large enough block `p` is found after `prevp`. */
    method Take(prevp: int, p: int, nunits: nat, ghost k: nat) returns (ap: int)
      requires Valid() && freep != NULL && 0 < nunits
      requires 0 < k < |blocks| && p == blocks[k] && prevp == blocks[k - 1]
      requires p in mem && prevp in mem && nunits <= mem[p].size
      modifies this
      ensures Valid() && freep != NULL && obtained == old(obtained) && brk == old(brk)
      ensures ap != NULL && ap - 1 !in old(live) && live == old(live)[ap - 1 := nunits]
      ensures Untouched(old(mem), mem, old(live))
    {
      hide HeapInv, Untouched, Splice;
      TakeFacts(mem, blocks, live, brk, obtained, k);
      ghost var mem0 := mem;
      var q := p;
      if mem[p].size == nunits {
        mem := mem[prevp := mem[prevp].(ptr := mem[p].ptr)];
        TakeWhole(mem0, blocks, live, brk, obtained, k, nunits, mem);
        blocks := Splice(blocks, k - 1, [], k + 1);
        assert blocks[k - 1] == prevp;
      } else {
        mem := mem[p := mem[p].(size := mem[p].size - nunits)];
        q := q + mem[q].size;
        mem := mem[q := mem[q].(size := nunits)];
        TakeTail(mem0, blocks, live, brk, obtained, k, nunits, mem);
        assert blocks[k - 1] == prevp;
      }
      live := live[q := nunits];
      freep := prevp;
      return q + 1;
    }

    /**
      malloc.  `os` is the process when sbrk is called, if it is.  The block handed out is new,
      is as long as the request, and no unit in use changes.  malloc returns 0 exactly when no
      free block is large enough and sbrk refuses; it calls sbrk at most once, and only when
      no free block was large enough.  `wild` is the one way out of this: nothing fits, and
      the request is one whose byte count is not positive when the kernel sees it.
      */
    method Malloc(nbytes: nat, os: Process) returns (ap: int, wild: bool)
      requires Valid() && nbytes < WORD && brk <= os.top
      modifies this
      ensures wild <==> Wraps(nbytes) && AllSmall(old(mem), old(blocks), NUnits(nbytes))
      ensures wild ==> os.top !in mem && forall u :: u in mem ==> u < CutAt(os.top, ToInt32(Grow(NUnits(nbytes)) * UNIT))
      ensures !wild ==> Valid() && Untouched(old(mem), mem, old(live))
      ensures !wild && ap != NULL ==> ap - 1 !in old(live) && live == old(live)[ap - 1 := NUnits(nbytes)]
      ensures !wild ==> (ap == NULL <==> AllSmall(old(mem), old(blocks), NUnits(nbytes)) && Refuses(os, Grow(NUnits(nbytes)) * UNIT))
      ensures !wild && ap == NULL ==> live == old(live) && obtained == old(obtained)
      ensures !wild ==> obtained == old(obtained) + if ap != NULL && AllSmall(old(mem), old(blocks), NUnits(nbytes)) then Grow(NUnits(nbytes)) else 0
    {
      hide HeapInv, Untouched, NUnits, AllSmall, Grow, Refuses, ToInt32, CutAt;
      ghost var mem0 := mem;
      SameMemory(mem, live);
      SbrkArgument(nbytes);
      if freep == NULL {
        mem := mem[BASE := Header(BASE, 0)];
        freep := BASE;
        blocks := [BASE];
        FirstCall(mem, brk);
        NothingLive(mem0, mem);
        OnlyBase(mem0, old(blocks), mem, NUnits(nbytes));
      }
      ghost var mem1 := mem;
      ap, wild := Search(NUnits(nbytes), os);
      if !wild {
        UntouchedChain(mem0, mem1, mem, old(live));
      }
    }

    /** The search loop of malloc. */
    method Search(nunits: nat, os: Process) returns (ap: int, wild: bool)
      requires Valid() && freep != NULL && 0 < nunits && brk <= os.top
      requires ToInt32(Grow(nunits) * UNIT) == Grow(nunits) * UNIT || ToInt32(Grow(nunits) * UNIT) <= 0
      modifies this
      ensures wild <==> ToInt32(Grow(nunits) * UNIT) <= 0 && AllSmall(old(mem), old(blocks), nunits)
      ensures wild ==> os.top !in mem && mem == Below(old(mem), CutAt(os.top, ToInt32(Grow(nunits) * UNIT)))
      ensures !wild ==> Valid() && Untouched(old(mem), mem, old(live))
      ensures !wild && ap != NULL ==> ap - 1 !in old(live) && live == old(live)[ap - 1 := nunits]
      ensures !wild ==> (ap == NULL <==> AllSmall(old(mem), old(blocks), nunits) && Refuses(os, Grow(nunits) * UNIT))
      ensures !wild && ap == NULL ==> live == old(live) && obtained == old(obtained)
      ensures !wild ==> obtained == old(obtained) + if ap != NULL && AllSmall(old(mem), old(blocks), nunits) then Grow(nunits) else 0
    {
      hide HeapInv, Untouched, AllSmall, LapInv, Succ, Dist, Grow, Refuses, ToInt32, CutAt, Below, Within;
      wild := false;
      ghost var mem1, blocks1, live1 := mem, blocks, live;
      SameMemory(mem, live);
      ghost var f: nat :| f < |blocks| && blocks[f] == freep;
      ghost var k: nat, asked: bool, g: nat := Succ(f, |blocks|), false, 0;
      FollowRing(mem, blocks, live, brk, obtained, f);
      FollowRing(mem, blocks, live, brk, obtained, k);
      LapStart(mem, blocks, f, asked, g, nunits);
      var prevp := freep;
      var p := mem[prevp].ptr;
      while true
        invariant freep in blocks && freep != NULL && BASE < brk && HeapInv(mem, blocks, live, brk, obtained) && Within(mem, brk)
        invariant live == live1 && Untouched(mem1, mem, live1)
        invariant asked ==> obtained == old(obtained) + Grow(nunits) && AllSmall(mem1, blocks1, nunits) && !Refuses(os, Grow(nunits) * UNIT)
        invariant asked ==> ToInt32(Grow(nunits) * UNIT) > 0
        invariant !asked ==> mem == mem1 && blocks == blocks1 && obtained == old(obtained) && brk == old(brk)
        invariant f < |blocks| && freep == blocks[f]
        invariant k < |blocks| && p == blocks[k] && p in mem
        invariant 0 < k ==> prevp == blocks[k - 1] && prevp in mem
        invariant LapInv(mem, blocks, f, k, asked, g, nunits)
        decreases !asked, |blocks| - Dist(Succ(f, |blocks|), k, |blocks|)
      {
        if mem[p].size >= nunits {
          BaseIsEmpty(mem, blocks, live, brk, obtained);
          ghost var mem2 := mem;
          if !asked {
            NotSmall(mem, blocks, k, nunits);
          }
          ap := Take(prevp, p, nunits, k);
          UntouchedChain(mem1, mem2, mem, live1);
          return;
        }
        if p == freep {
          SameIndex(mem, blocks, live, brk, obtained, f, k);
          LapEnd(mem, blocks, f, k, asked, g, nunits);
          ghost var mem2 := mem;
          p, wild, g := Morecore(nunits, os);
          if wild {
            return NULL, true;
          }
          UntouchedChain(mem1, mem2, mem, live1);
          if p == NULL {
            return NULL, false;
          }
          asked := true;
          f :| f < |blocks| && blocks[f] == freep;
          k := f;
          LapStart(mem, blocks, f, asked, g, nunits);
        } else {
          LapStep(mem, blocks, f, k, asked, g, nunits);
        }
        FollowRing(mem, blocks, live, brk, obtained, k);
        prevp := p;
        p := mem[p].ptr;
        k := Succ(k, |blocks|);
        FollowRing(mem, blocks, live, brk, obtained, k);
      }
    }
  }

  lemma OnlyBase(mem: Memory, blocks: seq<int>, mem': Memory, n: nat)
    requires blocks == [] && BASE in mem' && mem'[BASE].size == 0 && 0 < n
    ensures AllSmall(mem, blocks, n) && AllSmall(mem', [BASE], n)
  {
  }

  lemma NotSmall(mem: Memory, blocks: seq<int>, k: nat, n: nat)
    requires k < |blocks| && blocks[k] in mem && n <= mem[blocks[k]].size
    ensures !AllSmall(mem, blocks, n)
  {
  }

  lemma WholeUnits(nu: nat)
    ensures ToInt32(nu * UNIT) % UNIT == 0
    ensures 0 < nu && ToInt32(nu * UNIT) == nu * UNIT ==> ToInt32(nu * UNIT) / UNIT == nu
  {
  }

  /** The end of the process is not in memory once it has not grown. */
  lemma CutBelow(top: int, n: int)
    requires n <= 0 && n % UNIT == 0
    ensures CutAt(top, n) <= top
  {
  }

  /** No free block has `n` units. */
  ghost predicate AllSmall(mem: Memory, blocks: seq<int>, n: nat) {
    forall i :: 0 <= i < |blocks| ==> blocks[i] in mem && mem[blocks[i]].size < n
  }

  /**
    The state of a lap that began right after index `f` and has come to index `k`.  Before
    sbrk was asked: the blocks passed are too small.  Afterwards: a large enough block, at
    index `g`, has not been passed yet.
    */
  ghost predicate LapInv(mem: Memory, blocks: seq<int>, f: nat, k: nat, asked: bool, g: nat, n: nat) {
    && f < |blocks| && k < |blocks|
    && var s := Succ(f, |blocks|);
       if asked then
         && g < |blocks| && blocks[g] in mem && n <= mem[blocks[g]].size
         && Dist(s, k, |blocks|) <= Dist(s, g, |blocks|)
       else
         forall i :: 0 <= i < |blocks| && Dist(s, i, |blocks|) < Dist(s, k, |blocks|) ==>
           blocks[i] in mem && mem[blocks[i]].size < n
  }

  lemma LapStart(mem: Memory, blocks: seq<int>, f: nat, asked: bool, g: nat, n: nat)
    requires f < |blocks|
    requires asked ==> g < |blocks| && blocks[g] in mem && n <= mem[blocks[g]].size
    ensures LapInv(mem, blocks, f, Succ(f, |blocks|), asked, g, n)
    ensures 0 < Succ(f, |blocks|) ==> Succ(f, |blocks|) - 1 == f
  {
  }

  lemma LapStep(mem: Memory, blocks: seq<int>, f: nat, k: nat, asked: bool, g: nat, n: nat)
    requires LapInv(mem, blocks, f, k, asked, g, n) && k != f
    requires blocks[k] in mem && mem[blocks[k]].size < n
    ensures LapInv(mem, blocks, f, Succ(k, |blocks|), asked, g, n)
    ensures Dist(Succ(f, |blocks|), Succ(k, |blocks|), |blocks|) == Dist(Succ(f, |blocks|), k, |blocks|) + 1
    ensures 0 < Succ(k, |blocks|) ==> Succ(k, |blocks|) - 1 == k
  {
    DistStep(f, k, |blocks|);
  }

  /** The lap ends at index `f`; then no block is large enough, so sbrk has not been asked before. */
  lemma LapEnd(mem: Memory, blocks: seq<int>, f: nat, k: nat, asked: bool, g: nat, n: nat)
    requires LapInv(mem, blocks, f, k, asked, g, n) && k == f
    requires blocks[k] in mem && mem[blocks[k]].size < n
    ensures !asked && AllSmall(mem, blocks, n)
  {
  }

  lemma SameIndex(mem: Memory, blocks: seq<int>, live: map<int, nat>, brk: int, obtained: nat, f: nat, k: nat)
    requires HeapInv(mem, blocks, live, brk, obtained) && f < |blocks| && k < |blocks| && blocks[f] == blocks[k]
    ensures f == k
  {
    Ordered(mem, blocks, brk);
  }

  lemma BaseIsEmpty(mem: Memory, blocks: seq<int>, live: map<int, nat>, brk: int, obtained: nat)
    requires HeapInv(mem, blocks, live, brk, obtained)
    ensures 0 < |blocks| && blocks[0] in mem && mem[blocks[0]].size == 0
  {
  }

  lemma FirstCall(mem: Memory, brk: int)
    requires BASE < brk && BASE in mem && mem[BASE] == Header(BASE, 0)
    ensures HeapInv(mem, [BASE], map[], brk, 0)
  {
    assert LinkAt(mem, [BASE], 0);
    SumFreeOne(mem, BASE);
  }

  lemma NothingLive(mem: Memory, mem': Memory)
    ensures Untouched(mem, mem', map[])
  {
  }

  lemma SameMemory(mem: Memory, live: map<int, nat>)
    ensures Untouched(mem, mem, live)
  {
  }

  lemma UntouchedChain(mem: Memory, mem': Memory, mem'': Memory, live: map<int, nat>)
    requires Untouched(mem, mem', live) && Untouched(mem', mem'', live)
    ensures Untouched(mem, mem'', live)
  {
  }

  lemma TakeFacts(mem: Memory, blocks: seq<int>, live: map<int, nat>, brk: int, obtained: nat, k: nat)
    requires HeapInv(mem, blocks, live, brk, obtained) && 0 < k < |blocks|
    ensures BASE <= blocks[k - 1] < blocks[k] && blocks[k] in mem && 0 < mem[blocks[k]].size
    ensures forall u :: blocks[k] <= u < blocks[k] + mem[blocks[k]].size ==> u in mem
  {
    Ordered(mem, blocks, brk);
    assert 0 < k - 1 ==> blocks[0] < blocks[k - 1];
    assert Mapped(mem, blocks[k], mem[blocks[k]].size);
  }

  lemma InMemory(mem: Memory, blocks: seq<int>, live: map<int, nat>, brk: int, obtained: nat)
    requires HeapInv(mem, blocks, live, brk, obtained)
    ensures forall i :: 0 <= i < |blocks| ==> blocks[i] in mem
  {
  }

  lemma LiveFacts(mem: Memory, blocks: seq<int>, live: map<int, nat>, brk: int, obtained: nat, bp: int)
    requires HeapInv(mem, blocks, live, brk, obtained) && bp in live
    ensures 0 < |blocks| && Sorted(blocks) && blocks[0] < bp && bp !in blocks
  {
    LiveSlot(mem, blocks, live, brk, bp);
  }

  lemma FollowRing(mem: Memory, blocks: seq<int>, live: map<int, nat>, brk: int, obtained: nat, k: nat)
    requires HeapInv(mem, blocks, live, brk, obtained) && k < |blocks|
    ensures blocks[k] in mem && mem[blocks[k]].ptr == blocks[Succ(k, |blocks|)]
  {
    assert LinkAt(mem, blocks, k);
  }

  /** What free's two `if`s read. */
  lemma UpperFacts(mem: Memory, blocks: seq<int>, live: map<int, nat>, brk: int, obtained: nat, bp: int)
    requires HeapInv(mem, blocks, live, brk, obtained) && bp in live
    requires 0 < |blocks| && Sorted(blocks) && blocks[0] < bp
    ensures forall i :: 0 <= i < |blocks| ==> blocks[i] in mem
    ensures var t := Slot(blocks, bp);
      var p := blocks[t];
      && p in mem && bp in mem && p != NULL && p != bp && mem[bp].size == live[bp]
      && mem[p].ptr in mem && mem[p].ptr == Follow(blocks, t + 1)
      && (mem[p].ptr == bp + live[bp] <==> t + 1 < |blocks| && bp + live[bp] == blocks[t + 1])
      && (t + 1 < |blocks| ==> mem[mem[p].ptr].ptr == Follow(blocks, t + 2) && 0 <= mem[mem[p].ptr].size)
  {
    hide Slot;
    var t := Slot(blocks, bp);
    LiveSlot(mem, blocks, live, brk, bp);
    Ordered(mem, blocks, brk);
    assert LinkAt(mem, blocks, t);
    if t + 1 < |blocks| {
      assert LinkAt(mem, blocks, t + 1);
    }
    assert forall i :: 0 <= i < |blocks| ==> BASE <= blocks[i] by {
      assert forall i :: 0 < i < |blocks| ==> blocks[0] < blocks[i];
    }
  }
}
