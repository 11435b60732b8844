/** What several modules share: the kernel's parameters, the 32-bit word, and two facts about finite sets. */
module Common {

  const WORD := 0x1_0000_0000

  const MAXOPBLOCKS := 10       // blocks that begin_op reserves for one operation
  const LOGSIZE := 30           // capacity of a log header
  const NBUF: nat := 30         // buffers in the cache

  datatype Option<T> = None | Some(value: T)

  lemma {:induction false} SubsetSize(a: set<nat>, b: set<nat>)
    requires a <= b
    ensures |a| <= |b|
  {
    if x :| x in b - a {
      SubsetSize(a, b - {x});
    } else {
      forall x | x in b ensures x in a {
        assert x !in b - a;
      }
      assert a == b;
    }
  }

  lemma {:induction false} DisjointSize(a: set<nat>, b: set<nat>)
    requires a !! b
    ensures |a + b| == |a| + |b|
  {
    if x :| x in b {
      DisjointSize(a, b - {x});
      assert a + b == (a + (b - {x})) + {x};
    } else {
      assert a + b == a;
    }
  }

  /** The numbers from `lo` up to `hi`. */
  ghost function Interval(lo: nat, hi: nat): (r: set<nat>)
    ensures forall x :: x in r <==> lo <= x < hi
    ensures |r| == if lo < hi then hi - lo else 0
  {
    if lo < hi then Interval(lo, hi - 1) + {hi - 1} else {}
  }
}
