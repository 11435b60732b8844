/**
  Pipes: the 512-byte ring with 32-bit counters, and the sleep/wakeup handshake between
  any number of readers, writers and closers.
  */
module Pipe {
  import opened Common

  const PIPESIZE := 512

  // ----- the ring

  datatype Ring = Ring(data: seq<int>, nread: nat, nwrite: nat) {
    ghost predicate Valid() {
      && |data| == PIPESIZE && nread < WORD && nwrite < WORD
      && Count() <= PIPESIZE
    }

    /** The number of bytes in the pipe, from the wrapping counters. */
    function Count(): (n: nat) {
      (nwrite - nread) % WORD
    }

    predicate Full() { nwrite == (nread + PIPESIZE) % WORD }
    predicate Empty() { nread == nwrite }

    /** The bytes in the pipe, oldest first. */
    ghost function Contents(): (s: seq<int>)
      requires Valid()
      ensures |s| == Count()
    {
      seq(Count(), k requires 0 <= k => data[(nread + k) % PIPESIZE])
    }

    /** data[nwrite++ % PIPESIZE] = b */
    function Put(b: int): (r: Ring)
      requires |data| == PIPESIZE
    {
      Ring(data[nwrite % PIPESIZE := b], nread, (nwrite + 1) % WORD)
    }

    /** nread++ */
    function Drop(): (r: Ring) {
      Ring(data, (nread + 1) % WORD, nwrite)
    }

    function Front(): (b: int)
      requires |data| == PIPESIZE
    {
      data[nread % PIPESIZE]
    }
  }

  /** The tests of the source recognise exactly the full and the empty pipe, also after a counter has wrapped. */
  lemma TestsAreExact(r: Ring)
    requires r.Valid()
    ensures r.Full() <==> r.Count() == PIPESIZE
    ensures r.Empty() <==> r.Count() == 0
  {
  }

  lemma Wrapped(a: nat, k: nat)
    ensures (a % WORD + k) % PIPESIZE == (a + k) % PIPESIZE
  {
    var q := a / WORD;
    assert a == q * WORD + a % WORD;
    assert WORD == PIPESIZE * 0x80_0000;
    ModAdd(a % WORD + k, q * 0x80_0000);
  }

  lemma {:induction false} ModAdd(x: nat, q: nat)
    ensures (x + q * PIPESIZE) % PIPESIZE == x % PIPESIZE
    decreases q
  {
    if q > 0 {
      ModAdd(x + PIPESIZE, q - 1);
      assert (x + PIPESIZE) % PIPESIZE == x % PIPESIZE;
    }
  }

  /** The distance between two counters, and how a step of either changes it. */
  lemma Distance(a: nat, b: nat)
    requires a < WORD && b < WORD
    ensures (a + (b - a) % WORD) % WORD == b
    ensures (b - a) % WORD < WORD - 1 ==> ((b + 1) % WORD - a) % WORD == (b - a) % WORD + 1
    ensures 0 < (b - a) % WORD ==> (b - (a + 1) % WORD) % WORD == (b - a) % WORD - 1
  {
    Residue(b - a);
    Residue((b + 1) % WORD - a);
    Residue(b - (a + 1) % WORD);
  }

  lemma Residue(x: int)
    ensures 0 <= x < WORD ==> x % WORD == x
    ensures -WORD <= x < 0 ==> x % WORD == x + WORD
  {
  }

  lemma PutAppends(r: Ring, b: int)
    requires r.Valid() && !r.Full()
    ensures r.Put(b).Valid() && r.Put(b).Contents() == r.Contents() + [b]
  {
    TestsAreExact(r);
    var n, t := r.Count(), r.Put(b);
    Distance(r.nread, r.nwrite);
    Wrapped(r.nread + n, 0);
    assert (r.nread + n) % PIPESIZE == r.nwrite % PIPESIZE;
    forall k | 0 <= k < n ensures t.Contents()[k] == r.Contents()[k] {
      SlotsDiffer(r.nread, k, n);
    }
  }

  lemma SlotsDiffer(a: nat, k: nat, n: nat)
    requires k < n < PIPESIZE
    ensures (a + k) % PIPESIZE != (a + n) % PIPESIZE
  {
  }

  lemma DropRemovesFront(r: Ring)
    requires r.Valid() && !r.Empty()
    ensures r.Drop().Valid() && r.Contents() == [r.Front()] + r.Drop().Contents()
  {
    TestsAreExact(r);
    var n, t := r.Count(), r.Drop();
    Distance(r.nread, r.nwrite);
    forall k | 0 <= k < n - 1 ensures t.Contents()[k] == r.Contents()[k + 1] {
      Wrapped(r.nread + 1, k);
    }
    assert r.Contents()[0] == r.Front();
  }

  // ----- processes

  /** The two channels: readers sleep on the address of nread, writers on that of nwrite. */
  datatype Chan = NoChan | NRead | NWrite

  datatype Role = Writer | Reader | WriteCloser | ReadCloser {
    /** The channel this role sleeps on. */
    function SleepsOn(): Chan { if Writer? then NWrite else NRead }
    /** The channel this role wakes before it leaves. */
    function Wakes(): Chan { if Writer? || WriteCloser? then NRead else NWrite }
  }

  /** Where a process is.  The comments name the locks held there: p the pipe's, t the process table's. */
  datatype PC =
    | Out
    | Acquire
    | Test      /*p*/      // the loop tests of pipewrite and piperead; pipeclose clears its flag here
    | Copy      /*p*/      // the copy loop of piperead
    | Wake      /*p*/      // pipewrite, pipe full: wakeup before sleep
    | Final     /*p*/      // the wakeup at the end of all three functions
    | Sleep     /*p*/      // sleep(): about to take the table lock
    | SleepT    /*p,t*/    // sleep(): about to release the pipe lock
    | SleepS    /*t*/      // sleep(): about to become SLEEPING
    | Slept                // SLEEPING, or woken and not yet scheduled
    | Release   /*p*/

  datatype Proc = Proc(
    pc: PC,
    role: Role,
    sleeping: Chan,       // the channel while the process is SLEEPING
    killed: bool,
    buf: seq<int>,        // bytes to write, or bytes read so far
    i: nat,               // bytes written so far
    n: int,               // bytes wanted by a reader
    ret: int,             // what the call returns, once it is known
    call: int)            // the number of the call, or NOCALL

  /** A call of pipewrite or piperead, with its process and its arguments. */
  datatype Call = WriteOf(p: nat, src: seq<int>) | ReadOf(p: nat, n: int)

  const NOCALL := -1

  /** A byte stored or taken, and the call that did it. */
  datatype Entry = Entry(byte: int, call: int)

  /** Everything but the processes. */
  datatype Shared = Shared(
    ring: Ring, readopen: bool, writeopen: bool,
    plock: int, tlock: int,             // holding process, or FREE
    rfd: bool, wfd: bool,               // some file still refers to the read, write end
    calls: seq<Call>,                   // history: the calls so far,
    stored: seq<Entry>, taken: seq<Entry>)    // all bytes stored, all bytes taken

  datatype State = State(sh: Shared, procs: seq<Proc>)

  /** The effect of one section: the shared state, the process itself, and the channel it wakes. */
  datatype Move = Move(sh: Shared, x: Proc, wakes: Chan)

  const FREE := -1

  datatype Step =
    | StartWrite(p: nat, src: seq<int>)
    | StartRead(p: nat, n: int)
    | StartClose(p: nat, write: bool)   // the last reference to an end goes away
    | Kill(p: nat)
    | Go(p: nat)                        // one atomic section of process p

  predicate HoldsP(pc: PC) {
    pc.Test? || pc.Copy? || pc.Wake? || pc.Final? || pc.Sleep? || pc.SleepT? || pc.Release?
  }

  predicate HoldsT(pc: PC) {
    pc.SleepT? || pc.SleepS?
  }

  /** wakeup1, seen from one process: a sleeper on `c` becomes runnable. */
  function Woken(x: Proc, c: Chan): Proc {
    if x.sleeping == c then x.(sleeping := NoChan) else x
  }

  /** The state after process `p` has made the move `m`. */
  function After(s: State, p: nat, m: Move): (s': State)
    requires p < |s.procs|
    ensures |s'.procs| == |s.procs| && s'.sh == m.sh && s'.procs[p] == m.x
    ensures forall q :: 0 <= q < |s.procs| && q != p ==> s'.procs[q] == Woken(s.procs[q], m.wakes)
  {
    State(m.sh, seq(|s.procs|, q requires 0 <= q < |s.procs| => if q == p then m.x else Woken(s.procs[q], m.wakes)))
  }

  /** The process has a next section and the lock it needs, if any, is free. */
  predicate Ready(sh: Shared, x: Proc) {
    && |sh.ring.data| == PIPESIZE
    && match x.pc
       case Out => false
       case Acquire => sh.plock == FREE
       case Wake | Sleep | Final => sh.tlock == FREE
       case Slept => x.sleeping == NoChan && sh.tlock == FREE
       case _ => true
  }

  function Goto(sh: Shared, x: Proc, pc: PC): Move {
    Move(sh, x.(pc := pc), NoChan)
  }

  /** The loop of pipewrite at its tests. */
  function WriteTest(sh: Shared, x: Proc): (m: Move)
    requires |sh.ring.data| == PIPESIZE
  {
    if x.i >= |x.buf| then Goto(sh, x.(ret := |x.buf|), Final)
    else if sh.ring.Full() then
      if !sh.readopen || x.killed then Goto(sh.(plock := FREE), x.(ret := -1), Out)    // release and return
      else Goto(sh, x, Wake)
    else
      Move(sh.(ring := sh.ring.Put(x.buf[x.i]), stored := sh.stored + [Entry(x.buf[x.i], x.call)]), x.(i := x.i + 1), NoChan)
  }

  /** The loop of piperead that waits for data. */
  function ReadTest(sh: Shared, x: Proc): (m: Move) {
    if sh.ring.Empty() && sh.writeopen then
      if x.killed then Goto(sh, x.(ret := -1), Release) else Goto(sh, x, Sleep)
    else Goto(sh, x, Copy)
  }

  /** The copy loop of piperead. */
  function ReadCopy(sh: Shared, x: Proc): (m: Move)
    requires |sh.ring.data| == PIPESIZE
  {
    if |x.buf| >= x.n || sh.ring.Empty() then Goto(sh, x.(ret := |x.buf|), Final)
    else
      Move(sh.(ring := sh.ring.Drop(), taken := sh.taken + [Entry(sh.ring.Front(), x.call)]), x.(buf := x.buf + [sh.ring.Front()]), NoChan)
  }

  /** One atomic section of process `p`. */
  function Section(sh: Shared, p: nat, x: Proc): (m: Move)
    requires Ready(sh, x)
  {
    match x.pc
    case Out => Goto(sh, x, Out)
    case Acquire => Goto(sh.(plock := p), x, Test)
    case Test =>
      (match x.role
       case Writer => WriteTest(sh, x)
       case Reader => ReadTest(sh, x)
       case WriteCloser => Goto(sh.(writeopen := false), x, Final)
       case ReadCloser => Goto(sh.(readopen := false), x, Final))
    case Copy => ReadCopy(sh, x)
    case Wake => Move(sh, x.(pc := Sleep), NRead)
    case Final => Move(sh, x.(pc := Release), x.role.Wakes())
    case Sleep => Goto(sh.(tlock := p), x, SleepT)
    case SleepT => Goto(sh.(plock := FREE), x, SleepS)
    case SleepS => Move(sh.(tlock := FREE), x.(pc := Slept, sleeping := x.role.SleepsOn()), NoChan)
    case Slept => Goto(sh, x, Acquire)
    case Release => Goto(sh.(plock := FREE), x, Out)
  }

  /** Process `x` is inside a call of role `r`. */
  predicate Inside(x: Proc, r: Role) {
    x.pc != Out && x.role == r
  }

  ghost predicate Enabled(s: State, step: Step) {
    && step.p < |s.procs|
    && var x := s.procs[step.p];
       match step
       case StartWrite(p, src) => x.pc == Out && s.sh.wfd
       case StartRead(p, n) => x.pc == Out && s.sh.rfd
       case StartClose(p, write) =>
         && x.pc == Out
         && (if write then s.sh.wfd else s.sh.rfd)
         && forall q :: 0 <= q < |s.procs| ==> !Inside(s.procs[q], if write then Writer else Reader)
       case Kill(p) => s.sh.tlock == FREE
       case Go(p) => Ready(s.sh, x)
  }

  ghost function MoveOf(s: State, step: Step): (m: Move)
    requires Enabled(s, step)
  {
    var x := s.procs[step.p];
    match step
    case StartWrite(p, src) =>
      Move(s.sh.(calls := s.sh.calls + [WriteOf(p, src)]), x.(pc := Acquire, role := Writer, buf := src, i := 0, call := |s.sh.calls|), NoChan)
    case StartRead(p, n) =>
      Move(s.sh.(calls := s.sh.calls + [ReadOf(p, n)]), x.(pc := Acquire, role := Reader, buf := [], n := n, call := |s.sh.calls|), NoChan)
    case StartClose(p, write) =>
      if write then Move(s.sh.(wfd := false), x.(pc := Acquire, role := WriteCloser, call := NOCALL), NoChan)
      else Move(s.sh.(rfd := false), x.(pc := Acquire, role := ReadCloser, call := NOCALL), NoChan)
    case Kill(p) => Move(s.sh, x.(killed := true, sleeping := NoChan), NoChan)
    case Go(p) => Section(s.sh, p, x)
  }

  ghost function Next(s: State, step: Step): (s': State)
    requires Enabled(s, step)
  {
    After(s, step.p, MoveOf(s, step))
  }

  ghost predicate Init(s: State) {
    && |s.sh.ring.data| == PIPESIZE && s.sh.ring.nread == s.sh.ring.nwrite == 0
    && s.sh.readopen && s.sh.writeopen && s.sh.rfd && s.sh.wfd && s.sh.plock == s.sh.tlock == FREE
    && (forall q :: 0 <= q < |s.procs| ==> s.procs[q].pc == Out && s.procs[q].sleeping == NoChan && s.procs[q].role == Reader && s.procs[q].call == NOCALL)
    && s.sh.calls == [] && s.sh.stored == [] && s.sh.taken == []
  }

  // ----- invariants

  ghost function Bytes(es: seq<Entry>): (r: seq<int>)
    ensures |r| == |es|
  {
    seq(|es|, k requires 0 <= k < |es| => es[k].byte)
  }

  /** The bytes of one call, in order. */
  ghost function Mine(es: seq<Entry>, c: int): (r: seq<int>) {
    if es == [] then []
    else
      var n := |es| - 1;
      Mine(es[..n], c) + if es[n].call == c then [es[n].byte] else []
  }

  /** The bytes taken, followed by the bytes in the pipe, are the bytes stored. */
  ghost predicate Fifo(sh: Shared) {
    && sh.ring.Valid()
    && Bytes(sh.stored) == Bytes(sh.taken) + sh.ring.Contents()
  }

  /** Which locks process `q` holds, where its role can be, and what it may sleep on. */
  predicate LocksAt(sh: Shared, q: nat, x: Proc) {
    && (HoldsP(x.pc) <==> sh.plock == q)
    && (HoldsT(x.pc) <==> sh.tlock == q)
    && (x.pc.Wake? ==> x.role.Writer?) && (x.pc.Copy? ==> x.role.Reader?)
    && (x.pc.Sleep? || x.pc.SleepT? || x.pc.SleepS? || x.pc.Slept? ==> x.role.Writer? || x.role.Reader?)
    && (x.sleeping != NoChan ==> x.pc == Slept && x.sleeping == x.role.SleepsOn())
  }

  /** A process on its way to sleep has seen, and under the lock still sees, the condition it waits on. */
  predicate WaitingAt(sh: Shared, x: Proc) {
    x.pc.Wake? || x.pc.Sleep? || x.pc.SleepT? ==>
      if x.role.Writer? then sh.ring.Full() && sh.readopen else sh.ring.Empty() && sh.writeopen
  }

  /** An end is closed only after its last user has left. */
  predicate EndsAt(sh: Shared, x: Proc) {
    && (!sh.readopen ==> !sh.rfd) && (!sh.writeopen ==> !sh.wfd)
    && (x.pc != Out ==>
          match x.role
          case Writer => sh.wfd
          case Reader => sh.rfd
          case WriteCloser => !sh.wfd
          case ReadCloser => !sh.rfd)
  }

  /** A process sleeps on `c`, or has released the pipe lock in order to. */
  predicate Parked(x: Proc, c: Chan) {
    x.sleeping == c || (x.pc.SleepS? && x.role.SleepsOn() == c)
  }

  /** What the sleepers on `c` wait for has happened. */
  predicate News(sh: Shared, c: Chan) {
    if c == NRead then !sh.ring.Empty() || !sh.writeopen else !sh.ring.Full() || !sh.readopen
  }

  /** A process here will call wakeup on `c` before it gives up the pipe lock. */
  predicate Owes(x: Proc, c: Chan) {
    || (x.pc.Final? && x.role.Wakes() == c)
    || (x.pc.Copy? && c == NWrite)
    || (x.pc.Wake? && c == NRead)
    || (x.pc.Test? && !x.role.Reader? && x.role.Wakes() == c)
  }

  ghost predicate Local(s: State) {
    forall q :: 0 <= q < |s.procs| ==>
      LocksAt(s.sh, q, s.procs[q]) && WaitingAt(s.sh, s.procs[q]) && EndsAt(s.sh, s.procs[q])
  }

  /** The holder of the pipe lock is a process that will wake `c`. */
  ghost predicate HolderOwes(s: State, c: Chan) {
    0 <= s.sh.plock < |s.procs| && Owes(s.procs[s.sh.plock], c)
  }

  /** Whoever sleeps although its condition holds is owed a wakeup by the holder of the pipe lock. */
  ghost predicate Owed(s: State, c: Chan) {
    forall q :: 0 <= q < |s.procs| && Parked(s.procs[q], c) && News(s.sh, c) ==> HolderOwes(s, c)
  }

  ghost predicate Inv(s: State) {
    Fifo(s.sh) && Local(s) && Owed(s, NRead) && Owed(s, NWrite)
  }

  // ----- every section keeps the local invariants

  /** The section that stores a byte, and the one that takes a byte. */
  predicate Stores(sh: Shared, x: Proc) { x.pc.Test? && x.role.Writer? && x.i < |x.buf| && !sh.ring.Full() }
  predicate Takes(sh: Shared, x: Proc) { x.pc.Copy? && |x.buf| < x.n && !sh.ring.Empty() }

  lemma StoreSection(sh: Shared, p: nat, x: Proc)
    requires Ready(sh, x) && Stores(sh, x)
    ensures var m := Section(sh, p, x);
      m.sh == sh.(ring := sh.ring.Put(x.buf[x.i]), stored := sh.stored + [Entry(x.buf[x.i], x.call)]) && m.x == x.(i := x.i + 1)
  {
    hide Ring.Full, Ring.Empty, Ring.Put, Ring.Drop, Ring.Front;
  }

  lemma TakeSection(sh: Shared, p: nat, x: Proc)
    requires Ready(sh, x) && Takes(sh, x)
    ensures var m := Section(sh, p, x);
      m.sh == sh.(ring := sh.ring.Drop(), taken := sh.taken + [Entry(sh.ring.Front(), x.call)]) && m.x == x.(buf := x.buf + [sh.ring.Front()])
  {
    hide Ring.Full, Ring.Empty, Ring.Put, Ring.Drop, Ring.Front;
  }

  lemma OtherSection(sh: Shared, p: nat, x: Proc)
    requires Ready(sh, x) && !Stores(sh, x) && !Takes(sh, x)
    ensures var m := Section(sh, p, x);
      && m.sh.calls == sh.calls && m.sh.stored == sh.stored && m.sh.taken == sh.taken && m.sh.ring == sh.ring
      && (m.sh.readopen ==> sh.readopen) && (m.sh.writeopen ==> sh.writeopen)
      && m.x == x.(pc := m.x.pc, sleeping := m.x.sleeping, ret := m.x.ret)
  {
    hide Section, Ready, Stores, Takes;
    OtherShared(sh, p, x);
    OtherProc(sh, p, x);
  }

  lemma OtherShared(sh: Shared, p: nat, x: Proc)
    requires Ready(sh, x) && !Stores(sh, x) && !Takes(sh, x)
    ensures SamePipe(sh, Section(sh, p, x).sh)
  {
    hide WriteTest, ReadTest, ReadCopy, Ring.Full, Ring.Empty;
    if x.pc.Test? || x.pc.Copy? {
      OtherTest(sh, x);
    }
  }

  lemma OtherTest(sh: Shared, x: Proc)
    requires |sh.ring.data| == PIPESIZE && !Stores(sh, x) && !Takes(sh, x)
    ensures x.pc.Test? && x.role.Writer? ==> SamePipe(sh, WriteTest(sh, x).sh)
    ensures x.pc.Test? && x.role.Reader? ==> SamePipe(sh, ReadTest(sh, x).sh)
    ensures x.pc.Copy? ==> SamePipe(sh, ReadCopy(sh, x).sh)
  {
    hide Ring.Full, Ring.Empty;
  }

  /** Neither the ring nor the histories have changed, and the read end has not been opened. */
  predicate SamePipe(sh: Shared, sh': Shared) {
    && sh'.ring == sh.ring && sh'.calls == sh.calls && sh'.stored == sh.stored && sh'.taken == sh.taken
    && (sh'.readopen ==> sh.readopen) && (sh'.writeopen ==> sh.writeopen)
  }

  lemma OtherProc(sh: Shared, p: nat, x: Proc)
    requires Ready(sh, x) && !Stores(sh, x) && !Takes(sh, x)
    ensures var m := Section(sh, p, x); m.x == x.(pc := m.x.pc, sleeping := m.x.sleeping, ret := m.x.ret)
  {
    hide Ring.Full, Ring.Empty, Ring.Put, Ring.Drop, Ring.Front;
  }

  lemma KeepFifo(s: State, step: Step)
    requires Enabled(s, step) && Fifo(s.sh)
    ensures Fifo(Next(s, step).sh)
  {
    hide Section, Ring.Full, Ring.Empty, Ring.Put, Ring.Drop, Ring.Front, Ring.Valid, Ring.Contents, Bytes;
    if step.Go? {
      SectionFifo(s.sh, step.p, s.procs[step.p]);
    }
  }

  lemma SectionFifo(sh: Shared, p: nat, x: Proc)
    requires Ready(sh, x) && Fifo(sh)
    ensures Fifo(Section(sh, p, x).sh)
  {
    hide Section, Bytes, Ring.Full, Ring.Empty, Ring.Put, Ring.Drop, Ring.Front, Ring.Valid, Ring.Contents;
    if Stores(sh, x) {
      StoreSection(sh, p, x);
      PutAppends(sh.ring, x.buf[x.i]);
      BytesSnoc(sh.stored, Entry(x.buf[x.i], x.call));
    } else if Takes(sh, x) {
      TakeSection(sh, p, x);
      DropRemovesFront(sh.ring);
      BytesSnoc(sh.taken, Entry(sh.ring.Front(), x.call));
      var f := sh.ring.Front();
      assert Bytes(sh.taken) + ([f] + sh.ring.Drop().Contents()) == Bytes(sh.taken) + [f] + sh.ring.Drop().Contents();
    } else {
      OtherShared(sh, p, x);
    }
  }

  lemma BytesSnoc(es: seq<Entry>, e: Entry)
    ensures Bytes(es + [e]) == Bytes(es) + [e.byte]
  {
  }

  lemma SectionKeepsLocal(sh: Shared, p: nat, x: Proc)
    requires Ready(sh, x) && LocksAt(sh, p, x) && WaitingAt(sh, x) && EndsAt(sh, x)
    ensures var m := Section(sh, p, x); LocksAt(m.sh, p, m.x) && WaitingAt(m.sh, m.x) && EndsAt(m.sh, m.x)
  {
    hide Ring.Full, Ring.Empty, Ring.Put, Ring.Drop, Ring.Front;
  }

  /** A section takes or gives up only its own locks, and changes the pipe only under the pipe lock. */
  lemma SectionFrame(sh: Shared, p: nat, x: Proc)
    requires Ready(sh, x) && LocksAt(sh, p, x)
    ensures var m := Section(sh, p, x);
      && OwnLock(sh.plock, m.sh.plock, p) && OwnLock(sh.tlock, m.sh.tlock, p)
      && (sh.plock != p ==> m.sh.ring == sh.ring && m.sh.readopen == sh.readopen && m.sh.writeopen == sh.writeopen)
      && m.sh.rfd == sh.rfd && m.sh.wfd == sh.wfd
  {
    hide Section;
    SectionLocks(sh, p, x);
    SectionPipe(sh, p, x);
  }

  /** A lock stays with its holder, or passes between nobody and `p`. */
  predicate OwnLock(before: int, after: int, p: nat) {
    after == before || (before == FREE && after == p) || (before == p && after == FREE)
  }

  lemma SectionLocks(sh: Shared, p: nat, x: Proc)
    requires Ready(sh, x) && LocksAt(sh, p, x)
    ensures var m := Section(sh, p, x);
      OwnLock(sh.plock, m.sh.plock, p) && OwnLock(sh.tlock, m.sh.tlock, p)
  {
    hide Ring.Full, Ring.Empty, Ring.Put, Ring.Drop, Ring.Front;
  }

  lemma SectionPipe(sh: Shared, p: nat, x: Proc)
    requires Ready(sh, x) && LocksAt(sh, p, x)
    ensures var m := Section(sh, p, x);
      && (sh.plock != p ==> m.sh.ring == sh.ring && m.sh.readopen == sh.readopen && m.sh.writeopen == sh.writeopen)
      && m.sh.rfd == sh.rfd && m.sh.wfd == sh.wfd
  {
    hide Ring.Full, Ring.Empty, Ring.Put, Ring.Drop, Ring.Front;
  }

  /** The early return of a killed writer while a reader is parked. */
  ghost predicate Loses(s: State, step: Step) {
    && step.Go? && step.p < |s.procs| && KilledReturn(s.sh, s.procs[step.p])
    && exists q :: 0 <= q < |s.procs| && Parked(s.procs[q], NRead)
  }

  /** pipewrite is about to return -1 because the pipe is full and the process was killed. */
  predicate KilledReturn(sh: Shared, x: Proc) {
    x.pc.Test? && x.role.Writer? && x.i < |x.buf| && sh.ring.Full() && x.killed
  }

  lemma KeepLocal(s: State, step: Step)
    requires Enabled(s, step) && Local(s)
    ensures Local(Next(s, step))
  {
    hide Section;
    var sh, p, s' := s.sh, step.p, Next(s, step);
    if step.Go? {
      SectionKeepsLocal(sh, p, s.procs[p]);
      SectionFrame(sh, p, s.procs[p]);
    }
    forall q | 0 <= q < |s.procs|
      ensures LocksAt(s'.sh, q, s'.procs[q]) && WaitingAt(s'.sh, s'.procs[q]) && EndsAt(s'.sh, s'.procs[q])
    {
      assert LocksAt(sh, q, s.procs[q]) && WaitingAt(sh, s.procs[q]) && EndsAt(sh, s.procs[q]);
      if q != p {
        assert s'.procs[q] == Woken(s.procs[q], MoveOf(s, step).wakes);
      }
    }
  }

  /** The mover itself: it parks only on a condition that does not hold. */
  lemma MoverParks(sh: Shared, p: nat, x: Proc, c: Chan)
    requires Ready(sh, x) && LocksAt(sh, p, x) && WaitingAt(sh, x) && c != NoChan
    ensures var m := Section(sh, p, x);
      Parked(m.x, c) && News(m.sh, c) ==> m.wakes == NoChan && Parked(x, c) && News(sh, c) && m.sh.plock == sh.plock
  {
    hide Ring.Full, Ring.Empty, Ring.Put, Ring.Drop, Ring.Front;
  }

  /** Another process stays parked: then it was parked before, and the mover has not just woken its channel. */
  lemma OtherParked(sh: Shared, p: nat, x: Proc, q: nat, y: Proc, c: Chan)
    requires Ready(sh, x) && LocksAt(sh, p, x) && LocksAt(sh, q, y) && p != q && c != NoChan
    ensures var m := Section(sh, p, x);
      Parked(Woken(y, m.wakes), c) ==> Parked(y, c) && m.wakes != c
  {
    hide Ring.Full, Ring.Empty, Ring.Put, Ring.Drop, Ring.Front;
  }

  /** A mover that owes a wakeup on `c` still owes it, has given it, or is a writer's early return. */
  lemma MoverOwes(sh: Shared, p: nat, x: Proc, c: Chan)
    requires Ready(sh, x) && LocksAt(sh, p, x) && c != NoChan
    requires Owes(x, c) || (!News(sh, c) && News(Section(sh, p, x).sh, c))
    ensures var m := Section(sh, p, x);
      || (m.sh.plock == p && Owes(m.x, c))
      || m.wakes == c
      || (c == NRead && x.pc.Test? && x.role.Writer? && x.i < |x.buf| && sh.ring.Full() && (x.killed || !sh.readopen))
  {
    hide Ring.Full, Ring.Empty, Ring.Put, Ring.Drop, Ring.Front;
    match x.role
    case Writer =>
    case Reader =>
    case WriteCloser =>
    case ReadCloser =>
  }

  lemma KeepOwed(s: State, step: Step, c: Chan)
    requires Enabled(s, step) && Local(s) && Owed(s, c) && c != NoChan
    requires c == NRead ==> !Loses(s, step)
    ensures Owed(Next(s, step), c)
  {
    hide Section;
    var sh, p, s' := s.sh, step.p, Next(s, step);
    var x, m := s.procs[p], MoveOf(s, step);
    forall q | 0 <= q < |s.procs| && Parked(s'.procs[q], c) && News(s'.sh, c) ensures HolderOwes(s', c) {
      var y := s.procs[q];
      assert LocksAt(sh, p, x) && LocksAt(sh, q, y) && EndsAt(sh, y) && WaitingAt(sh, x);
      if step.Go? {
        SectionFrame(sh, p, x);
        if q == p {
          MoverParks(sh, p, x, c);
          assert HolderOwes(s, c);
          HolderStays(s, step, c);
        } else {
          OtherParked(sh, p, x, q, y, c);
          if News(sh, c) && sh.plock != p {
            assert HolderOwes(s, c);
            HolderStays(s, step, c);
          } else {
            MoverOwes(sh, p, x, c);
          }
        }
      } else {
        assert HolderOwes(s, c);
        HolderStays(s, step, c);
      }
    }
  }

  lemma HolderStays(s: State, step: Step, c: Chan)
    requires Enabled(s, step) && Local(s) && HolderOwes(s, c)
    requires step.Go? ==> MoveOf(s, step).sh.plock == s.sh.plock && s.sh.plock != step.p
    ensures HolderOwes(Next(s, step), c)
  {
    hide Section;
    assert LocksAt(s.sh, step.p, s.procs[step.p]);
  }

  // ----- whole runs

  ghost predicate Run(s: State, steps: seq<Step>, s': State)
    decreases |steps|
  {
    if steps == [] then s' == s
    else Enabled(s, steps[0]) && Run(Next(s, steps[0]), steps[1..], s')
  }

  /** No killed writer of the run leaves through its early return while a reader is parked. */
  ghost predicate LossFree(s: State, steps: seq<Step>)
    decreases |steps|
  {
    steps != [] && Enabled(s, steps[0]) ==>
      !Loses(s, steps[0]) && LossFree(Next(s, steps[0]), steps[1..])
  }

  lemma InitInv(s: State)
    requires Init(s)
    ensures Inv(s)
  {
  }

  lemma {:induction false} RunFifo(s: State, steps: seq<Step>, s': State)
    requires Fifo(s.sh) && Run(s, steps, s')
    ensures Fifo(s'.sh)
    decreases |steps|
  {
    hide Next, Enabled, Fifo;
    if steps != [] {
      KeepFifo(s, steps[0]);
      RunFifo(Next(s, steps[0]), steps[1..], s');
    }
  }

  /**
    A pipe is a FIFO: in every run of any processes, however often the counters have wrapped,
    the bytes taken out are a prefix of the bytes put in, and the rest, at most 512 bytes, is
    exactly what the ring holds.
    */
  lemma PipeIsFifo(s: State, steps: seq<Step>, s': State)
    requires Init(s) && Run(s, steps, s')
    ensures s'.sh.ring.Valid() && s'.sh.ring.Count() <= PIPESIZE
    ensures Bytes(s'.sh.taken) <= Bytes(s'.sh.stored)
    ensures Bytes(s'.sh.stored)[|s'.sh.taken|..] == s'.sh.ring.Contents()
  {
    InitInv(s);
    RunFifo(s, steps, s');
  }

  lemma {:induction false} RunInv(s: State, steps: seq<Step>, s': State)
    requires Inv(s) && Run(s, steps, s') && LossFree(s, steps)
    ensures Inv(s')
    decreases |steps|
  {
    hide Next, Enabled, Loses, Fifo, Local, Owed;
    if steps != [] {
      KeepFifo(s, steps[0]);
      KeepLocal(s, steps[0]);
      KeepOwed(s, steps[0], NRead);
      KeepOwed(s, steps[0], NWrite);
      RunInv(Next(s, steps[0]), steps[1..], s');
    }
  }

  /**
    No wakeup is lost: whenever the pipe lock is free, no reader sleeps while there is data
    or the write end is closed, and no writer sleeps while there is room or the read end is
    closed.
    */
  lemma NoLostWakeup(s: State, steps: seq<Step>, s': State, q: nat)
    requires Init(s) && Run(s, steps, s') && LossFree(s, steps)
    requires s'.sh.plock == FREE && q < |s'.procs|
    ensures s'.procs[q].sleeping == NRead ==> s'.sh.ring.Count() == 0 && s'.sh.writeopen
    ensures s'.procs[q].sleeping == NWrite ==> s'.sh.ring.Count() == PIPESIZE && s'.sh.readopen
  {
    InitInv(s);
    RunInv(s, steps, s');
    TestsAreExact(s'.sh.ring);
  }

  /** The early return of a killed writer is the only way to lose a wakeup, and it always does so when a reader is parked. */
  lemma LossIsExact(s: State, step: Step)
    requires Enabled(s, step) && Inv(s)
    ensures Owed(Next(s, step), NRead) <==> !Loses(s, step)
  {
    if Loses(s, step) {
      var q :| 0 <= q < |s.procs| && Parked(s.procs[q], NRead);
      var s' := Next(s, step);
      assert LocksAt(s.sh, q, s.procs[q]) && LocksAt(s.sh, step.p, s.procs[step.p]);
      TestsAreExact(s.sh.ring);
      assert s'.sh.plock == FREE && Parked(s'.procs[q], NRead) && News(s'.sh, NRead);
    } else {
      KeepOwed(s, step, NRead);
    }
  }

  lemma {:induction false} RunSnoc(s: State, steps: seq<Step>, t: State, step: Step)
    requires Run(s, steps, t) && Enabled(t, step)
    ensures Run(s, steps + [step], Next(t, step))
    decreases |steps|
  {
    hide Next, Enabled;
    if steps == [] {
      assert ([step])[1..] == [];
      assert Run(Next(s, step), [], Next(t, step));
    } else {
      RunSnoc(Next(s, steps[0]), steps[1..], t, step);
      assert (steps + [step])[1..] == steps[1..] + [step];
    }
  }

  /** A reader sleeps on the empty pipe; a writer with 513 bytes holds the lock and has stored `k` of them. */
  ghost predicate Stuffing(s: State, k: nat) {
    && Fifo(s.sh) && |s.procs| == 2 && k <= PIPESIZE
    && s.procs[0].sleeping == NRead && s.procs[0].pc == Slept && s.procs[0].role == Reader
    && s.procs[1].pc == Test && s.procs[1].role == Writer && |s.procs[1].buf| == PIPESIZE + 1 && s.procs[1].i == k
    && s.sh.plock == 1 && s.sh.tlock == FREE && s.sh.ring.Count() == k
  }

  lemma ReaderParks(s: State) returns (steps: seq<Step>, t: State)
    requires Init(s) && |s.procs| == 2 && !s.procs[0].killed
    ensures Run(s, steps, t)
    ensures Fifo(t.sh) && |t.procs| == 2 && t.procs[0].sleeping == NRead && t.procs[0].pc == Slept && t.procs[0].role == Reader
    ensures t.procs[1] == s.procs[1] && t.sh == s.sh.(calls := t.sh.calls)
  {
    hide Run;
    steps, t := [], s;
    assert Run(s, steps, t) by { RunNone(s); }
    RunSnoc(s, steps, t, StartRead(0, 1));
    steps, t := steps + [StartRead(0, 1)], Next(t, StartRead(0, 1));
    RunSnoc(s, steps, t, Go(0));
    steps, t := steps + [Go(0)], Next(t, Go(0));
    RunSnoc(s, steps, t, Go(0));
    steps, t := steps + [Go(0)], Next(t, Go(0));
    RunSnoc(s, steps, t, Go(0));
    steps, t := steps + [Go(0)], Next(t, Go(0));
    RunSnoc(s, steps, t, Go(0));
    steps, t := steps + [Go(0)], Next(t, Go(0));
    RunSnoc(s, steps, t, Go(0));
    steps, t := steps + [Go(0)], Next(t, Go(0));
  }

  lemma RunNone(s: State)
    ensures Run(s, [], s)
  {
  }

  lemma {:induction false} Stuff(s: State, k: nat) returns (steps: seq<Step>, t: State)
    requires Init(s) && |s.procs| == 2 && !s.procs[0].killed && k <= PIPESIZE
    ensures Run(s, steps, t) && Stuffing(t, k)
  {
    if k == 0 {
      steps, t := ReaderParks(s);
      var w := StartWrite(1, seq(PIPESIZE + 1, i => 0));
      RunSnoc(s, steps, t, w);
      steps, t := steps + [w], Next(t, w);
      RunSnoc(s, steps, t, Go(1));
      steps, t := steps + [Go(1)], Next(t, Go(1));
    } else {
      steps, t := Stuff(s, k - 1);
      TestsAreExact(t.sh.ring);
      PutAppends(t.sh.ring, t.procs[1].buf[t.procs[1].i]);
      RunSnoc(s, steps, t, Go(1));
      KeepFifo(t, Go(1));
      steps, t := steps + [Go(1)], Next(t, Go(1));
    }
  }

  /**
    A wakeup can be lost: a reader sleeps on the empty pipe, a writer stores 512 of its 513
    bytes, is killed and returns.  The pipe lock is free, 512 bytes are in the pipe, and the
    reader still sleeps.
    */
  lemma WakeupLost(s: State) returns (steps: seq<Step>, t: State)
    requires Init(s) && |s.procs| == 2 && !s.procs[0].killed
    ensures Run(s, steps, t)
    ensures |t.procs| == 2 && t.sh.plock == FREE && t.procs[0].sleeping == NRead && t.sh.ring.Count() == PIPESIZE
  {
    hide Run;
    steps, t := Stuff(s, PIPESIZE);
    TestsAreExact(t.sh.ring);
    RunSnoc(s, steps, t, Kill(1));
    steps, t := steps + [Kill(1)], Next(t, Kill(1));
    RunSnoc(s, steps, t, Go(1));
    steps, t := steps + [Go(1)], Next(t, Go(1));
  }

  // ----- kill

  /**
    A process asleep in the pipe that is killed gets out: on its own next steps it returns -1,
    with the pipe as it was and the lock released.
    */
  lemma KilledReturns(s: State, p: nat) returns (steps: seq<Step>, t: State)
    requires Local(s) && s.sh.ring.Valid() && p < |s.procs| && s.procs[p].sleeping != NoChan && s.sh.plock == s.sh.tlock == FREE
    requires if s.procs[p].role.Writer? then s.procs[p].i < |s.procs[p].buf| && s.sh.ring.Full() else s.sh.ring.Empty() && s.sh.writeopen
    ensures Run(s, steps, t) && |t.procs| == |s.procs| && t.sh == s.sh
    ensures t.procs[p] == s.procs[p].(pc := Out, sleeping := NoChan, killed := true, ret := -1)
  {
    hide Run, Ring.Full, Ring.Empty;
    assert LocksAt(s.sh, p, s.procs[p]);
    RunNone(s);
    RunSnoc(s, [], s, Kill(p));
    steps, t := [] + [Kill(p)], Next(s, Kill(p));
    RunSnoc(s, steps, t, Go(p));
    steps, t := steps + [Go(p)], Next(t, Go(p));
    RunSnoc(s, steps, t, Go(p));
    steps, t := steps + [Go(p)], Next(t, Go(p));
    RunSnoc(s, steps, t, Go(p));
    steps, t := steps + [Go(p)], Next(t, Go(p));
    if s.procs[p].role.Reader? {
      RunSnoc(s, steps, t, Go(p));
      steps, t := steps + [Go(p)], Next(t, Go(p));
    }
  }

  // ----- what each call has stored or taken

  /** The calls that the steps of a run start. */
  function Started(steps: seq<Step>): (r: seq<Call>)
    decreases |steps|
  {
    if steps == [] then []
    else
      (match steps[0]
       case StartWrite(p, src) => [WriteOf(p, src)]
       case StartRead(p, n) => [ReadOf(p, n)]
       case _ => []) + Started(steps[1..])
  }

  /**
    A call in progress, or the last one of its process: a writer has stored the first `i` bytes
    of its source, and returns their number when that is all of them, and -1 otherwise; a
    reader has taken exactly the bytes in its buffer, and returns their number, or -1 with no
    bytes when it was killed; it stops short only on an empty pipe, and returns 0 although it
    wants bytes only when the write end is closed.  A finished pipeclose has closed its end.
    */
  ghost predicate CallAt(sh: Shared, q: nat, x: Proc) {
    && (x.call == NOCALL ==> x.pc == Out || x.role.WriteCloser? || x.role.ReadCloser?)
    && (x.pc.Final? || x.pc.Release? || x.pc.Out? ==> (x.role.WriteCloser? ==> !sh.writeopen) && (x.role.ReadCloser? ==> !sh.readopen))
    && (x.call != NOCALL ==>
          && 0 <= x.call < |sh.calls|
          && match x.role
             case Writer =>
               && sh.calls[x.call] == WriteOf(q, x.buf) && x.i <= |x.buf| && Mine(sh.stored, x.call) == x.buf[..x.i]
               && (x.pc.Final? || x.pc.Release? ==> x.i == |x.buf| == x.ret)
               && (x.pc.Out? ==> if x.i == |x.buf| then x.ret == |x.buf| else x.ret == -1 && (x.killed || !sh.readopen))
             case Reader =>
               && sh.calls[x.call] == ReadOf(q, x.n) && Mine(sh.taken, x.call) == x.buf && |x.buf| <= (if x.n < 0 then 0 else x.n)
               && (x.pc != Final && x.pc != Release && x.pc != Copy && x.pc != Out ==> x.buf == [])
               && (x.pc.Copy? && x.buf == [] ==> !sh.ring.Empty() || !sh.writeopen)
               && (x.pc.Final? ==> x.ret == |x.buf| && (|x.buf| == (if x.n < 0 then 0 else x.n) || sh.ring.Empty()))
               && ((x.pc.Final? || x.pc.Release? || x.pc.Out?) && x.ret == 0 && 0 < x.n ==> !sh.writeopen)
               && (x.pc.Release? || x.pc.Out? ==> x.ret == |x.buf| || (x.ret == -1 && x.killed && x.buf == []))
             case _ => false)
  }

  /** Any call so far. */
  ghost predicate CallOk(sh: Shared, c: nat)
    requires c < |sh.calls|
  {
    match sh.calls[c]
    case WriteOf(p, src) => Mine(sh.stored, c) <= src && Mine(sh.taken, c) == []
    case ReadOf(p, n) => Mine(sh.stored, c) == [] && |Mine(sh.taken, c)| <= if n < 0 then 0 else n
  }

  ghost predicate Tagged(sh: Shared) {
    && (forall k :: 0 <= k < |sh.stored| ==> sh.stored[k].call < |sh.calls|)
    && (forall k :: 0 <= k < |sh.taken| ==> sh.taken[k].call < |sh.calls|)
  }

  ghost predicate Calls(s: State) {
    && Tagged(s.sh)
    && (forall c :: 0 <= c < |s.sh.calls| ==> CallOk(s.sh, c))
    && (forall q :: 0 <= q < |s.procs| ==> CallAt(s.sh, q, s.procs[q]))
  }

  lemma MineSnoc(es: seq<Entry>, e: Entry, c: int)
    ensures Mine(es + [e], c) == Mine(es, c) + if e.call == c then [e.byte] else []
  {
    assert (es + [e])[..|es|] == es;
  }

  lemma {:induction false} MineNone(es: seq<Entry>, c: int)
    requires forall k :: 0 <= k < |es| ==> es[k].call < c
    ensures Mine(es, c) == []
    decreases |es|
  {
    if es != [] {
      MineNone(es[..|es| - 1], c);
    }
  }

  /** What a section does to the histories. */
  lemma SectionHistory(sh: Shared, p: nat, x: Proc, c: int)
    requires Ready(sh, x)
    ensures var m := Section(sh, p, x);
      && m.sh.calls == sh.calls && m.x.call == x.call && m.x.role == x.role
      && (m.sh.readopen ==> sh.readopen) && (m.sh.writeopen ==> sh.writeopen)
      && (c != x.call ==> Mine(m.sh.stored, c) == Mine(sh.stored, c) && Mine(m.sh.taken, c) == Mine(sh.taken, c))
      && (m.sh.stored != sh.stored ==> x.role.Writer? && x.i < |x.buf| && m.sh.stored == sh.stored + [Entry(x.buf[x.i], x.call)])
      && (m.sh.taken != sh.taken ==> x.pc.Copy? && exists b :: m.sh.taken == sh.taken + [Entry(b, x.call)])
  {
    hide Section, Ready, Mine, Ring.Full, Ring.Empty;
    if Stores(sh, x) {
      StoreSection(sh, p, x);
      MineSnoc(sh.stored, Entry(x.buf[x.i], x.call), c);
    } else if Takes(sh, x) {
      TakeSection(sh, p, x);
      MineSnoc(sh.taken, Section(sh, p, x).sh.taken[|sh.taken|], c);
    } else {
      OtherSection(sh, p, x);
    }
  }

  /** Where a section that neither stores nor takes leads, and what the call will return. */
  lemma SectionPlace(sh: Shared, p: nat, x: Proc)
    requires Ready(sh, x) && LocksAt(sh, p, x) && !Stores(sh, x) && !Takes(sh, x)
    ensures var m := Section(sh, p, x);
      && (x.role.Writer? ==>
            && (m.x.pc.Final? || m.x.pc.Release? ==> (x.i >= |x.buf| == m.x.ret) || ((x.pc.Final? || x.pc.Release?) && m.x.ret == x.ret))
            && (m.x.pc.Out? ==> (x.pc.Release? && m.x.ret == x.ret) || (x.i < |x.buf| && m.x.ret == -1 && (x.killed || !m.sh.readopen))))
      && (x.role.Reader? ==>
            && (m.x.pc.Copy? ==> !sh.ring.Empty() || !m.sh.writeopen)
            && (m.x.pc.Final? ==> x.pc.Copy? && m.x.ret == |x.buf| && (|x.buf| >= x.n || sh.ring.Empty()))
            && (m.x.pc.Release? ==> (x.pc.Final? && m.x.ret == x.ret) || (x.pc.Test? && m.x.ret == -1 && x.killed))
            && (m.x.pc.Out? ==> x.pc.Release? && m.x.ret == x.ret)
            && (x.pc.Final? || x.pc.Release? || x.pc.Copy? ==> m.x.pc.Final? || m.x.pc.Release? || m.x.pc.Out?))
      && (x.role.WriteCloser? && m.x.pc.Final? ==> !m.sh.writeopen) && (x.role.ReadCloser? && m.x.pc.Final? ==> !m.sh.readopen)
      && (x.role.WriteCloser? || x.role.ReadCloser? ==> (m.x.pc.Release? ==> x.pc.Final?) && (m.x.pc.Out? ==> x.pc.Release?))
  {
    hide Ring.Full, Ring.Empty, Ring.Put, Ring.Drop, Ring.Front;
  }

  /** The mover's own call. */
  lemma SectionCall(sh: Shared, p: nat, x: Proc)
    requires Ready(sh, x) && LocksAt(sh, p, x) && CallAt(sh, p, x)
    ensures var m := Section(sh, p, x); CallAt(m.sh, p, m.x)
  {
    hide Section, Mine, Ring.Full, Ring.Empty;
    if Stores(sh, x) {
      StoreSection(sh, p, x);
      MineSnoc(sh.stored, Entry(x.buf[x.i], x.call), x.call);
      assert x.buf[..x.i] + [x.buf[x.i]] == x.buf[..x.i + 1];
    } else if Takes(sh, x) {
      TakeSection(sh, p, x);
      MineSnoc(sh.taken, Entry(sh.ring.Front(), x.call), x.call);
    } else {
      OtherSection(sh, p, x);
      SectionPlace(sh, p, x);
    }
  }

  /** The calls of the other processes are not affected. */
  lemma OtherCall(sh: Shared, sh': Shared, p: nat, x: Proc, q: nat, y: Proc, y': Proc)
    requires q != p && CallAt(sh, p, x) && CallAt(sh, q, y) && sh.calls <= sh'.calls
    requires (sh'.readopen ==> sh.readopen) && (sh'.writeopen ==> sh.writeopen)
    requires y.pc.Copy? || y.pc.Final? ==> sh'.ring == sh.ring
    requires y' == y.(sleeping := y'.sleeping)
    requires y.call != NOCALL && y.call != x.call ==> Mine(sh'.stored, y.call) == Mine(sh.stored, y.call) && Mine(sh'.taken, y.call) == Mine(sh.taken, y.call)
    ensures CallAt(sh', q, y')
  {
    hide Mine;
  }

  lemma MoverCall(s: State, step: Step)
    requires Enabled(s, step) && LocksAt(s.sh, step.p, s.procs[step.p]) && CallAt(s.sh, step.p, s.procs[step.p]) && Tagged(s.sh)
    ensures CallAt(Next(s, step).sh, step.p, Next(s, step).procs[step.p])
  {
    hide Section, Mine;
    if step.Go? {
      SectionCall(s.sh, step.p, s.procs[step.p]);
    } else if step.StartWrite? || step.StartRead? {
      MineNone(s.sh.stored, |s.sh.calls|);
      MineNone(s.sh.taken, |s.sh.calls|);
    }
  }

  lemma KeepTags(s: State, step: Step)
    requires Enabled(s, step) && CallAt(s.sh, step.p, s.procs[step.p]) && LocksAt(s.sh, step.p, s.procs[step.p]) && Tagged(s.sh)
    ensures Tagged(Next(s, step).sh)
  {
    hide Section, Mine;
    if step.Go? {
      SectionHistory(s.sh, step.p, s.procs[step.p], NOCALL);
    }
  }

  lemma KeepCallOk(s: State, step: Step, c: nat)
    requires Enabled(s, step) && LocksAt(s.sh, step.p, s.procs[step.p]) && CallAt(s.sh, step.p, s.procs[step.p]) && Tagged(s.sh)
    requires c < |Next(s, step).sh.calls| && (c < |s.sh.calls| ==> CallOk(s.sh, c))
    ensures CallOk(Next(s, step).sh, c)
  {
    hide Section, Mine;
    var x := s.procs[step.p];
    if step.Go? {
      SectionHistory(s.sh, step.p, x, c);
      SectionCall(s.sh, step.p, x);
    } else if c == |s.sh.calls| {
      MineNone(s.sh.stored, c);
      MineNone(s.sh.taken, c);
    }
  }

  /** The calls that the step starts are recorded, and the histories of other calls stay. */
  lemma StepHistory(s: State, step: Step, c: int)
    requires Enabled(s, step)
    ensures Next(s, step).sh.calls == s.sh.calls + Started([step])
    ensures (Next(s, step).sh.readopen ==> s.sh.readopen) && (Next(s, step).sh.writeopen ==> s.sh.writeopen)
    ensures c != s.procs[step.p].call ==>
      Mine(Next(s, step).sh.stored, c) == Mine(s.sh.stored, c) && Mine(Next(s, step).sh.taken, c) == Mine(s.sh.taken, c)
  {
    hide Section, Mine;
    assert [step][1..] == [];
    if step.Go? {
      SectionHistory(s.sh, step.p, s.procs[step.p], c);
    }
  }

  /** The ring is not changed behind the back of a process that holds the pipe lock. */
  lemma RingStays(s: State, step: Step, q: nat)
    requires Enabled(s, step) && q < |s.procs| && q != step.p && (s.procs[q].pc.Copy? || s.procs[q].pc.Final? ==> HoldsP(s.procs[q].pc))
    requires LocksAt(s.sh, step.p, s.procs[step.p]) && LocksAt(s.sh, q, s.procs[q])
    ensures s.procs[q].pc.Copy? || s.procs[q].pc.Final? ==> Next(s, step).sh.ring == s.sh.ring
  {
    hide Section;
    if step.Go? {
      SectionFrame(s.sh, step.p, s.procs[step.p]);
    }
  }

  lemma StepProc(s: State, step: Step)
    requires Enabled(s, step)
    ensures step.p < |s.procs|
  {
  }

  lemma KeepCalls(s: State, step: Step)
    requires Enabled(s, step) && Local(s) && Calls(s)
    ensures Calls(Next(s, step))
  {
    hide MoveOf, Enabled, Mine, CallAt, CallOk, Tagged, LocksAt, WaitingAt, EndsAt;
    StepProc(s, step);
    var sh, p, s' := s.sh, step.p, Next(s, step);
    var x := s.procs[p];
    assert LocksAt(sh, p, x) && CallAt(sh, p, x);
    MoverCall(s, step);
    KeepTags(s, step);
    forall c | 0 <= c < |s'.sh.calls| ensures CallOk(s'.sh, c) {
      KeepCallOk(s, step, c);
    }
    forall q | 0 <= q < |s.procs| ensures CallAt(s'.sh, q, s'.procs[q]) {
      if q != p {
        var y := s.procs[q];
        assert CallAt(sh, q, y) && LocksAt(sh, q, y);
        StepHistory(s, step, y.call);
        RingStays(s, step, q);
        OtherCall(sh, s'.sh, p, x, q, y, s'.procs[q]);
      }
    }
  }

  lemma {:induction false} RunCalls(s: State, steps: seq<Step>, s': State)
    requires Local(s) && Calls(s) && Run(s, steps, s')
    ensures Local(s') && Calls(s') && s'.sh.calls == s.sh.calls + Started(steps)
    decreases |steps|
  {
    hide Next, Enabled, Local, Calls;
    if steps != [] {
      KeepLocal(s, steps[0]);
      KeepCalls(s, steps[0]);
      StepHistory(s, steps[0], NOCALL);
      RunCalls(Next(s, steps[0]), steps[1..], s');
      assert Started([steps[0]]) + Started(steps[1..]) == Started(steps) by { assert [steps[0]][1..] == []; }
    }
  }

  /**
    Whose bytes they are, in every run: no call mixes its bytes with another's.  A call of
    pipewrite has stored a prefix of its source, a call of piperead has taken at most the bytes
    it asked for; the buffer that piperead hands to its caller holds them in the order in which
    they left the pipe.  What the calls return is exact, and a finished pipeclose has closed its
    end.
    */
  lemma CallsGetTheirBytes(s: State, steps: seq<Step>, s': State)
    requires Init(s) && Run(s, steps, s')
    ensures s'.sh.calls == Started(steps)
    ensures forall c :: 0 <= c < |s'.sh.calls| ==> CallOk(s'.sh, c)
    ensures forall q :: 0 <= q < |s'.procs| && s'.procs[q].call != NOCALL && s'.procs[q].role == Reader ==>
      ReaderHas(s'.sh, q, s'.procs[q])
    ensures forall q :: 0 <= q < |s'.procs| && s'.procs[q].call != NOCALL && s'.procs[q].role == Writer ==>
      WriterHas(s'.sh, q, s'.procs[q])
    ensures forall q :: 0 <= q < |s'.procs| && s'.procs[q].pc == Out ==>
      (s'.procs[q].role == WriteCloser ==> !s'.sh.writeopen) && (s'.procs[q].role == ReadCloser ==> !s'.sh.readopen)
  {
    hide Local, CallAt, Mine;
    InitInv(s);
    assert Calls(s) by {
      forall q | 0 <= q < |s.procs| ensures CallAt(s.sh, q, s.procs[q]) {
        NoCallYet(s.sh, q, s.procs[q]);
      }
    }
    RunCalls(s, steps, s');
    forall q | 0 <= q < |s'.procs| ensures CallHas(s'.sh, q, s'.procs[q]) {
      CallFacts(s'.sh, q, s'.procs[q]);
    }
  }

  lemma NoCallYet(sh: Shared, q: nat, x: Proc)
    requires x.call == NOCALL && x.pc == Out && x.role == Reader
    ensures CallAt(sh, q, x)
  {
  }

  /**
    The bytes taken by the call are those in the buffer.  It stops short only on an empty pipe;
    it returns their number, unless it was killed, and 0 only for the end of the file.
    */
  ghost predicate ReaderHas(sh: Shared, q: nat, x: Proc) {
    && 0 <= x.call < |sh.calls| && sh.calls[x.call] == ReadOf(q, x.n)
    && Mine(sh.taken, x.call) == x.buf && |x.buf| <= (if x.n < 0 then 0 else x.n)
    && (x.pc == Final ==> |x.buf| == (if x.n < 0 then 0 else x.n) || sh.ring.Empty())
    && (x.pc == Out ==> x.ret == |x.buf| || (x.ret == -1 && x.killed && x.buf == []))
    && (x.pc == Out && x.ret == 0 && 0 < x.n ==> !sh.writeopen)
  }

  /** The bytes stored by the call are the first `i` of its source; it returns their number when that is all of them. */
  ghost predicate WriterHas(sh: Shared, q: nat, x: Proc) {
    && 0 <= x.call < |sh.calls| && sh.calls[x.call] == WriteOf(q, x.buf) && x.i <= |x.buf|
    && Mine(sh.stored, x.call) == x.buf[..x.i]
    && (x.pc == Out ==> if x.i == |x.buf| then x.ret == |x.buf| else x.ret == -1 && (x.killed || !sh.readopen))
  }

  ghost predicate CallHas(sh: Shared, q: nat, x: Proc) {
    && (x.call != NOCALL && x.role == Reader ==> ReaderHas(sh, q, x))
    && (x.call != NOCALL && x.role == Writer ==> WriterHas(sh, q, x))
    && (x.pc == Out ==> (x.role == WriteCloser ==> !sh.writeopen) && (x.role == ReadCloser ==> !sh.readopen))
  }

  lemma CallFacts(sh: Shared, q: nat, x: Proc)
    requires CallAt(sh, q, x)
    ensures CallHas(sh, q, x)
  {
    hide Mine;
  }

  // ----- the copy loops on the array

  class PipeBuffer {
    const data: array<int>
    var nread: nat
    var nwrite: nat

    ghost predicate Valid()
      reads this, data
    {
      data.Length == PIPESIZE && Value().Valid()
    }

    ghost function Value(): (r: Ring)
      reads this, data
    {
      Ring(data[..], nread, nwrite)
    }

    constructor ()
      ensures Valid() && fresh(data) && Value().Contents() == []
    {
      data := new int[PIPESIZE];
      nread, nwrite := 0, 0;
    }

    /** The loop of pipewrite from byte `i` until the pipe is full or everything is stored. */
    method CopyIn(src: seq<int>, i: nat) returns (j: nat)
      requires Valid() && i <= |src|
      modifies this`nwrite, data
      ensures Valid() && i <= j <= |src| && nread == old(nread)
      ensures Value().Contents() == old(Value().Contents()) + src[i..j]
      ensures j == |src| || Value().Count() == PIPESIZE
    {
      hide Ring.Contents, Ring.Valid, Ring.Count;
      j := i;
      while j < |src| && nwrite != (nread + PIPESIZE) % WORD
        invariant Valid() && i <= j <= |src|
        invariant Value().Contents() == old(Value().Contents()) + src[i..j]
        decreases |src| - j
      {
        ghost var r := Value();
        PutAppends(r, src[j]);
        data[nwrite % PIPESIZE] := src[j];
        nwrite := (nwrite + 1) % WORD;
        assert Value() == r.Put(src[j]);
        j := j + 1;
      }
      TestsAreExact(Value());
    }

    /** The copy loop of piperead. */
    method CopyOut(n: int) returns (dst: seq<int>)
      requires Valid()
      modifies this`nread
      ensures Valid() && old(Value().Contents()) == dst + Value().Contents() && nwrite == old(nwrite)
      ensures |dst| == if n <= 0 then 0 else if n <= old(Value().Count()) then n else old(Value().Count())
    {
      hide Ring.Contents, Ring.Valid, Ring.Count;
      dst := [];
      while |dst| < n && nread != nwrite
        invariant Valid() && old(Value().Contents()) == dst + Value().Contents()
        invariant n <= 0 ==> dst == []
        invariant 0 <= n ==> |dst| <= n
        decreases n - |dst|
      {
        ghost var r := Value();
        DropRemovesFront(r);
        dst := dst + [data[nread % PIPESIZE]];
        nread := (nread + 1) % WORD;
        assert Value() == r.Drop();
      }
      TestsAreExact(Value());
    }
  }
}
