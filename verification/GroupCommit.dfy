/**
  Group commit as a step machine: any number of processes inside `begin_op`, `log_write`
  and `end_op`, one committer, and power failures at any moment.  A step is one locked
  section or one block write.  The guard of `log_write` runs before the lock is taken, so
  it is a step of its own.

  The machine keeps two history fields: `writes`, every logged block write since the disk
  was made, tagged with the operation that did it, and `cut`, how many of them the last
  header write made durable.
  */
module GroupCommit {
  import opened Common
  import opened RedoLog

  datatype Proc = Idle | Active(id: nat, added: nat, checked: bool)
  datatype Write = Write(op: nat, block: nat, data: Block)
  datatype Phase = Running | Committing(k: nat, base: Disk)    // k block writes of commit() done
  datatype Panic = NoPanic | TooBig | OutsideTransaction | EndWhileCommitting

  datatype State = State(
    disk: Disk,
    store: Disk,              // the blocks as the cache shows them
    lh: seq<int>,             // log.lh
    outstanding: int,         // log.outstanding
    phase: Phase,             // log.committing, and how far commit() is
    procs: seq<Proc>,
    nextOp: nat,
    panic: Panic,
    writes: seq<Write>,
    cut: nat)

  datatype Step =
    | Begin(p: nat)
    | Guard(p: nat)                              // log_write, before acquire
    | Append(p: nat, block: nat, data: Block)    // log_write, under the lock
    | End(p: nat)
    | BlockWrite                                 // next block write of commit()
    | Finish                                     // log.committing = 0
    | Crash(ks: seq<nat>)                        // power failure, then recoveries cut off after ks[i] writes

  predicate InOp(s: State, p: nat) {
    p < |s.procs| && s.procs[p].Active?
  }

  ghost predicate Enabled(L: Layout, s: State, step: Step) {
    && s.panic.NoPanic?
    && match step
       case Begin(p) =>
         && p < |s.procs| && s.procs[p].Idle?
         && s.phase.Running?
         && |s.lh| + (s.outstanding + 1) * MAXOPBLOCKS <= LOGSIZE
       case Guard(p) => InOp(s, p) && !s.procs[p].checked
       case Append(p, b, data) => InOp(s, p) && s.procs[p].checked && b < |s.store| && !L.InLog(b)
       case End(p) => InOp(s, p) && !s.procs[p].checked
       case BlockWrite =>
         && s.phase.Committing? && 0 < |s.lh| && s.phase.k < 2 * |s.lh| + 2
         && WfDisk(s.phase.base, L) && WfBlocks(s.lh, L, |s.phase.base|) && |s.store| == |s.phase.base|
       case Finish => s.phase.Committing? && (s.lh == [] || s.phase.k == 2 * |s.lh| + 2)
       case Crash(ks) => WfDisk(s.disk, L)
  }

  ghost function Next(L: Layout, s: State, step: Step): (s': State)
    requires Enabled(L, s, step)
  {
    match step
    case Begin(p) =>
      s.(outstanding := s.outstanding + 1, nextOp := s.nextOp + 1,
         procs := s.procs[p := Active(s.nextOp, 0, false)])
    case Guard(p) =>
      if |s.lh| >= LOGSIZE || |s.lh| >= L.size - 1 then s.(panic := TooBig)
      else if s.outstanding < 1 then s.(panic := OutsideTransaction)
      else s.(procs := s.procs[p := s.procs[p].(checked := true)])
    case Append(p, b, data) =>
      var isNew := if (b as int) in s.lh then 0 else 1;
      s.(lh := if (b as int) in s.lh then s.lh else s.lh + [b],
         store := s.store[b := data],
         procs := s.procs[p := Active(s.procs[p].id, s.procs[p].added + isNew, false)],
         writes := s.writes + [Write(s.procs[p].id, b, data)])
    case End(p) =>
      var t := s.(outstanding := s.outstanding - 1, procs := s.procs[p := Idle]);
      if s.phase.Committing? then t.(panic := EndWhileCommitting)
      else if t.outstanding == 0 then t.(phase := Committing(0, s.disk))
      else t
    case BlockWrite =>
      var k := s.phase.k + 1;
      s.(phase := s.phase.(k := k),
         disk := CommitPrefix(s.phase.base, L, s.store, s.lh, k),
         cut := if k == |s.lh| + 1 then |s.writes| else s.cut)
    case Finish =>
      s.(phase := Running, lh := [])
    case Crash(ks) =>
      var d := Recovered(Survive(s.disk, L, ks), L);
      s.(disk := d, store := d, lh := [], outstanding := 0, phase := Running,
         procs := seq(|s.procs|, i => Idle),
         writes := if s.cut <= |s.writes| then s.writes[..s.cut] else s.writes)
  }

  /** Boot on a disk whose log is empty. */
  ghost predicate Init(L: Layout, d: Disk, s: State) {
    && WfDisk(d, L) && HeadBlocks(d[L.start]) == []
    && s.disk == s.store == d && s.lh == [] && s.outstanding == 0 && s.phase.Running?
    && (forall p :: 0 <= p < |s.procs| ==> s.procs[p].Idle?)
    && s.panic.NoPanic? && s.writes == [] && s.cut == 0
  }

  ghost predicate Run(L: Layout, s: State, steps: seq<Step>, s': State)
    decreases |steps|
  {
    if steps == [] then s' == s
    else Enabled(L, s, steps[0]) && Run(L, Next(L, s, steps[0]), steps[1..], s')
  }

  /** The block store after a list of logged writes. */
  ghost function Replay(d: Disk, ws: seq<Write>): (r: Disk)
    ensures |r| == |d|
  {
    if ws == [] then d
    else
      var e := Replay(d, ws[..|ws| - 1]);
      var w := ws[|ws| - 1];
      if w.block < |e| then e[w.block := w.data] else e
  }

  /** No operation has one write before position `cut` and another one after it. */
  ghost predicate Whole(ws: seq<Write>, cut: nat) {
    forall i, j :: 0 <= i < cut <= j < |ws| ==> ws[i].op != ws[j].op
  }

  function Count(procs: seq<Proc>): (n: nat) {
    if procs == [] then 0
    else Count(procs[..|procs| - 1]) + if procs[|procs| - 1].Active? then 1 else 0
  }

  lemma {:induction false} CountUpdate(procs: seq<Proc>, p: nat, x: Proc)
    requires p < |procs|
    ensures Count(procs[p := x]) == Count(procs) - (if procs[p].Active? then 1 else 0) + if x.Active? then 1 else 0
  {
    var m := |procs| - 1;
    if p < m {
      CountUpdate(procs[..m], p, x);
      assert procs[p := x][..m] == procs[..m][p := x];
    } else {
      assert procs[p := x][..m] == procs[..m];
    }
  }

  lemma {:induction false} CountZero(procs: seq<Proc>)
    ensures Count(procs) == 0 <==> forall p :: 0 <= p < |procs| ==> procs[p].Idle?
  {
    if procs != [] {
      var m := |procs| - 1;
      CountZero(procs[..m]);
      assert forall p :: 0 <= p < m ==> procs[..m][p] == procs[p];
    }
  }

  // ----- the invariant

  ghost predicate Bookkeeping(s: State) {
    && s.outstanding == Count(s.procs)
    && (s.phase.Committing? ==> forall p :: 0 <= p < |s.procs| ==> s.procs[p].Idle?)
    && (s.phase.Running? && s.outstanding == 0 ==> s.lh == [])
    && s.panic != OutsideTransaction && s.panic != EndWhileCommitting
  }

  ghost predicate Ops(s: State) {
    && s.cut <= |s.writes|
    && (forall p :: 0 <= p < |s.procs| && s.procs[p].Active? ==> s.procs[p].id < s.nextOp)
    && (forall p, q :: 0 <= p < q < |s.procs| && s.procs[p].Active? && s.procs[q].Active? ==> s.procs[p].id != s.procs[q].id)
    && (forall i :: 0 <= i < |s.writes| ==> s.writes[i].op < s.nextOp)
    && (forall i, p :: 0 <= i < s.cut && 0 <= p < |s.procs| && s.procs[p].Active? ==> s.procs[p].id != s.writes[i].op)
    && Whole(s.writes, s.cut)
  }

  /** The disk that the running or committing group started from. */
  function Base(s: State): Disk {
    if s.phase.Running? then s.disk else s.phase.base
  }

  /** The first header write of the group in progress has not happened yet. */
  predicate Undecided(s: State) {
    s.phase.Running? || s.phase.k <= |s.lh|
  }

  ghost predicate Group(L: Layout, d: Disk, s: State) {
    && WfDisk(Base(s), L) && HeadBlocks(Base(s)[L.start]) == []
    && |Base(s)| == |s.store| == |d|
    && WfBlocks(s.lh, L, |d|)
    && SameHome(s.store, Replay(d, s.writes), L)
    && (forall b :: 0 <= b < |d| && !L.InLog(b) && b !in s.lh ==> s.store[b] == Base(s)[b])
  }

  ghost predicate Progress(L: Layout, d: Disk, s: State)
    requires Group(L, d, s)
  {
    && s.cut <= |s.writes|
    && (Undecided(s) ==>
          && SameHome(Base(s), Replay(d, s.writes[..s.cut]), L)
          && forall j :: s.cut <= j < |s.writes| ==> s.writes[j].block as int in s.lh)
    && (!Undecided(s) ==> s.cut == |s.writes|)
    && (s.phase.Committing? ==>
          && s.phase.k <= 2 * |s.lh| + 2
          && (s.lh == [] ==> s.phase.k == 0 && s.disk == s.phase.base)
          && (s.lh != [] ==> s.disk == CommitPrefix(s.phase.base, L, s.store, s.lh, s.phase.k)))
  }

  ghost predicate Inv(L: Layout, d: Disk, s: State) {
    Bookkeeping(s) && Ops(s) && Group(L, d, s) && Progress(L, d, s)
  }

  // ----- every step keeps the invariant

  lemma InitInv(L: Layout, d: Disk, s: State)
    requires Init(L, d, s)
    ensures Inv(L, d, s)
  {
    CountZero(s.procs);
  }

  lemma KeepBookkeeping(L: Layout, s: State, step: Step)
    requires Enabled(L, s, step) && Bookkeeping(s)
    ensures Bookkeeping(Next(L, s, step))
  {
    var s' := Next(L, s, step);
    CountZero(s'.procs);
    CountZero(s.procs);
    match step
    case Begin(p) => CountUpdate(s.procs, p, s'.procs[p]);
    case Guard(p) =>
      CountUpdate(s.procs, p, s.procs[p].(checked := true));
    case Append(p, b, data) => CountUpdate(s.procs, p, s'.procs[p]);
    case End(p) => CountUpdate(s.procs, p, Idle);
    case _ =>
  }

  lemma KeepOps(L: Layout, s: State, step: Step)
    requires Enabled(L, s, step) && Bookkeeping(s) && Ops(s)
    ensures Ops(Next(L, s, step))
  {
    hide Whole, CommitPrefix, Recovered, Survive, WfDisk, WfBlocks, Count;
    WholeStays(s.writes, s.cut);
    match step
    case Append(p, b, data) =>
      WholeAppends(s.writes, s.cut, Write(s.procs[p].id, b, data));
    case _ =>
  }

  /** A cut at the end, and a list cut off at the cut. */
  lemma WholeStays(ws: seq<Write>, cut: nat)
    ensures Whole(ws, |ws|) && (cut <= |ws| ==> Whole(ws[..cut], cut))
  {
  }

  lemma WholeAppends(ws: seq<Write>, cut: nat, w: Write)
    requires cut <= |ws| && Whole(ws, cut) && forall i :: 0 <= i < cut ==> ws[i].op != w.op
    ensures Whole(ws + [w], cut)
  {
  }

  lemma ReplayOne(d: Disk, ws: seq<Write>, w: Write)
    ensures Replay(d, ws + [w]) == if w.block < |d| then Replay(d, ws)[w.block := w.data] else Replay(d, ws)
  {
    assert (ws + [w])[..|ws|] == ws;
  }

  lemma KeepAppend(L: Layout, d: Disk, s: State, step: Step)
    requires Enabled(L, s, step) && Inv(L, d, s) && step.Append?
    requires |Next(L, s, step).lh| < L.size && |Next(L, s, step).lh| <= LOGSIZE
    ensures Group(L, d, Next(L, s, step)) && Progress(L, d, Next(L, s, step))
  {
    hide Replay, Ops, Whole, CommitPrefix, Count, WfDisk;
    var s' := Next(L, s, step);
    assert s.phase.Running?;
    ReplayOne(d, s.writes, Write(s.procs[step.p].id, step.block, step.data));
    assert s'.store == s.store[step.block := step.data];
    assert forall b :: b in s.lh ==> b in s'.lh;
    assert (step.block as int) in s'.lh;
    assert Group(L, d, s');
    assert s'.writes[..s.cut] == s.writes[..s.cut];
  }

  lemma KeepBlockWrite(L: Layout, d: Disk, s: State)
    requires Enabled(L, s, BlockWrite) && Inv(L, d, s)
    ensures Group(L, d, Next(L, s, BlockWrite)) && Progress(L, d, Next(L, s, BlockWrite))
  {
    hide CommitPrefix;
  }

  lemma PendingIsLogged(ws: seq<Write>, cut: nat, lh: seq<int>)
    requires forall j :: cut <= j < |ws| ==> ws[j].block as int in lh
    ensures cut < |ws| ==> lh != []
  {
    if cut < |ws| {
      assert ws[cut].block as int in lh;
    }
  }

  lemma KeepFinish(L: Layout, d: Disk, s: State)
    requires Enabled(L, s, Finish) && Inv(L, d, s)
    ensures Group(L, d, Next(L, s, Finish)) && Progress(L, d, Next(L, s, Finish))
    // a finished commit has made every write so far durable
    ensures s.cut == |s.writes|
  {
    var n := |s.lh|;
    var s' := Next(L, s, Finish);
    if n == 0 {
      PendingIsLogged(s.writes, s.cut, s.lh);
      assert s.writes[..s.cut] == s.writes;
    } else {
      CommittedDisk(s.phase.base, L, s.store, s.lh);
      assert s.writes[..s.cut] == s.writes;
      forall b | 0 <= b < |d| && !L.InLog(b) ensures s.store[b] == s.disk[b] {
        assert Overlay(s.phase.base, s.store, s.lh)[b] == s.store[b];
      }
    }
  }

  /** A whole commit leaves the overlay at home and an empty header. */
  lemma CommittedDisk(base: Disk, L: Layout, store: Disk, blocks: seq<int>)
    requires WfDisk(base, L) && WfBlocks(blocks, L, |base|) && |store| == |base|
    ensures var e := CommitPrefix(base, L, store, blocks, 2 * |blocks| + 2);
      && WfDisk(e, L) && |e| == |base| && HeadBlocks(e[L.start]) == []
      && SameHome(e, Overlay(base, store, blocks), L)
  {
    HeaderWritten(base, L, store, blocks);
    var h := CommitPrefix(base, L, store, blocks, |blocks| + 1);
    RecoveredEmptiesHeader(h, L);
    assert CommitPrefix(base, L, store, blocks, 2 * |blocks| + 2) == Recovered(h, L);
  }

  /** What any crash right now recovers to: exactly the durable writes. */
  lemma CrashRecovers(L: Layout, d: Disk, s: State, ks: seq<nat>)
    requires Inv(L, d, s)
    ensures WfDisk(s.disk, L)
    ensures var e := Recovered(Survive(s.disk, L, ks), L);
      && WfDisk(e, L) && HeadBlocks(e[L.start]) == []
      && SameHome(e, Replay(d, s.writes[..s.cut]), L)
  {
    hide CommitPrefix, Recovered, Overlay, WfBlocks, Survive;
    if s.phase.Running? || s.lh == [] {
      RecoveredClean(s.disk, L);
      RecoveredEmptiesHeader(Survive(s.disk, L, ks), L);
      assert SameHome(Recovered(Survive(s.disk, L, ks), L), Recovered(s.disk, L), L);
    } else {
      CrashAtomicity(s.phase.base, L, s.store, s.lh, s.phase.k, ks);
      RecoveredEmptiesHeader(Survive(s.disk, L, ks), L);
      OverlayStore(L, d, s);
      assert s.cut == |s.writes| ==> s.writes[..s.cut] == s.writes;
    }
  }

  lemma RecoveredClean(e: Disk, L: Layout)
    requires WfDisk(e, L) && HeadBlocks(e[L.start]) == []
    ensures SameHome(Recovered(e, L), e, L)
  {
    RecoveredEmptiesHeader(e, L);
    forall b | 0 <= b < |e| && !L.InLog(b) ensures Recovered(e, L)[b] == e[b] {
      RecoveredAt(e, L, b);
    }
  }

  lemma OverlayStore(L: Layout, d: Disk, s: State)
    requires Group(L, d, s)
    ensures SameHome(Overlay(Base(s), s.store, s.lh), s.store, L)
  {
  }

  lemma KeepCrash(L: Layout, d: Disk, s: State, step: Step)
    requires Enabled(L, s, step) && Inv(L, d, s) && step.Crash?
    ensures Group(L, d, Next(L, s, step)) && Progress(L, d, Next(L, s, step))
  {
    hide CommitPrefix, Recovered, Survive;
    CrashRecovers(L, d, s, step.ks);
    var s' := Next(L, s, step);
    assert s'.writes[..s'.cut] == s'.writes == s.writes[..s.cut];
  }

  lemma CommitStart(base: Disk, L: Layout, store: Disk, blocks: seq<int>)
    requires WfDisk(base, L) && WfBlocks(blocks, L, |base|) && |store| == |base|
    ensures CommitPrefix(base, L, store, blocks, 0) == base
  {
  }

  /** One step: the invariant survives unless the step makes the header outgrow the log area. */
  lemma KeepInv(L: Layout, d: Disk, s: State, step: Step)
    requires Enabled(L, s, step) && Inv(L, d, s)
    requires |Next(L, s, step).lh| < L.size && |Next(L, s, step).lh| <= LOGSIZE
    ensures Inv(L, d, Next(L, s, step))
  {
    hide CommitPrefix, Recovered, Survive;
    KeepBookkeeping(L, s, step);
    KeepOps(L, s, step);
    match step
    case Append(_, _, _) => KeepAppend(L, d, s, step);
    case BlockWrite => KeepBlockWrite(L, d, s);
    case Finish => KeepFinish(L, d, s);
    case Crash(ks) => KeepCrash(L, d, s, step);
    case End(p) => CommitStart(Base(s), L, s.store, s.lh);
    case _ =>
  }

  // ----- whole runs

  /** No state of the run has more header entries than the log area has copies. */
  ghost predicate Fits(L: Layout, s: State, steps: seq<Step>)
    decreases |steps|
  {
    && |s.lh| < L.size && |s.lh| <= LOGSIZE
    && (steps != [] && Enabled(L, s, steps[0]) ==> Fits(L, Next(L, s, steps[0]), steps[1..]))
  }

  lemma {:induction false} RunInv(L: Layout, d: Disk, s: State, steps: seq<Step>, s': State)
    requires Inv(L, d, s) && Run(L, s, steps, s') && Fits(L, s, steps)
    ensures Inv(L, d, s')
    decreases |steps|
  {
    if steps != [] {
      KeepInv(L, d, s, steps[0]);
      RunInv(L, d, Next(L, s, steps[0]), steps[1..], s');
    }
  }

  /**
    What a power failure now, followed by any series of interrupted recoveries `ks`, leads to:
    the home blocks that the first `cut` logged writes produce, where `cut` splits no
    operation.  While the machine is up, every read sees all writes so far.
    */
  ghost predicate Atomic(L: Layout, d: Disk, s: State, ks: seq<nat>) {
    && WfDisk(s.disk, L) && s.cut <= |s.writes|
    && SameHome(Recovered(Survive(s.disk, L, ks), L), Replay(d, s.writes[..s.cut]), L)
    && Whole(s.writes, s.cut)
    && SameHome(s.store, Replay(d, s.writes), L)
  }

  /** No operation is in progress and the last commit has finished. */
  ghost predicate Settled(s: State) {
    s.phase.Running? && forall p :: 0 <= p < |s.procs| ==> s.procs[p].Idle?
  }

  lemma FittingRunsAreAtomic(L: Layout, d: Disk, s: State, steps: seq<Step>, s': State, ks: seq<nat>)
    requires Init(L, d, s) && Run(L, s, steps, s') && Fits(L, s, steps)
    ensures Atomic(L, d, s', ks) && (Settled(s') ==> s'.cut == |s'.writes|)
    ensures s'.phase.Committing? ==> s'.outstanding == 0
    ensures s'.panic != EndWhileCommitting && s'.panic != OutsideTransaction
  {
    InitInv(L, d, s);
    RunInv(L, d, s, steps, s');
    CrashRecovers(L, d, s', ks);
    CountZero(s'.procs);
    if Settled(s') {
      PendingIsLogged(s'.writes, s'.cut, s'.lh);
    }
  }

  // ----- runs in which log_write is never entered twice at once

  predicate Checked(x: Proc) { x.Active? && x.checked }

  /** At most one process is between the guard of log_write and the lock. */
  ghost predicate OneChecked(s: State) {
    forall p, q :: 0 <= p < q < |s.procs| ==> !(Checked(s.procs[p]) && Checked(s.procs[q]))
  }

  ghost predicate SerialRun(L: Layout, s: State, steps: seq<Step>)
    decreases |steps|
  {
    && OneChecked(s)
    && (steps != [] && Enabled(L, s, steps[0]) ==> SerialRun(L, Next(L, s, steps[0]), steps[1..]))
  }

  /** The header fits, and what the guard saw still holds for whoever has passed it. */
  ghost predicate Guarded(L: Layout, s: State) {
    && |s.lh| < L.size && |s.lh| <= LOGSIZE
    && (forall p :: 0 <= p < |s.procs| && Checked(s.procs[p]) ==> |s.lh| < L.size - 1 && |s.lh| < LOGSIZE)
  }

  lemma KeepGuarded(L: Layout, s: State, step: Step)
    requires Enabled(L, s, step) && Guarded(L, s) && OneChecked(s)
    ensures Guarded(L, Next(L, s, step)) && |Next(L, s, step).procs| == |s.procs|
  {
    hide CommitPrefix, Recovered, Survive, WfDisk;
  }

  /** Whatever the operations log, such a run never overruns the log. */
  lemma {:induction false} SerialFits(L: Layout, s: State, steps: seq<Step>)
    requires Guarded(L, s) && SerialRun(L, s, steps)
    ensures Fits(L, s, steps)
    decreases |steps|
  {
    hide Next, Enabled, OneChecked;
    if steps != [] && Enabled(L, s, steps[0]) {
      KeepGuarded(L, s, steps[0]);
      SerialFits(L, Next(L, s, steps[0]), steps[1..]);
    }
  }

  /** One process, or a log area without room for a single copy, leaves no choice. */
  lemma {:induction false} NoRace(L: Layout, s: State, steps: seq<Step>)
    requires Guarded(L, s) && (|s.procs| <= 1 || L.size == 1)
    ensures SerialRun(L, s, steps)
    decreases |steps|
  {
    hide Next, Enabled;
    if steps != [] && Enabled(L, s, steps[0]) {
      KeepGuarded(L, s, steps[0]);
      NoRace(L, Next(L, s, steps[0]), steps[1..]);
    }
  }

  // ----- log space

  /** The most header entries that operations of at most `most` blocks can make, in the window that begin_op leaves. */
  function Peak(most: nat): (n: nat) { MAXOPBLOCKS + 2 * most }

  /** What the operations in progress may still add, at `most` each. */
  function Unused(procs: seq<Proc>, most: nat): (n: int) {
    if procs == [] then 0
    else
      var x := procs[|procs| - 1];
      Unused(procs[..|procs| - 1], most) + if x.Active? then most - x.added else 0
  }

  lemma {:induction false} UnusedUpdate(procs: seq<Proc>, p: nat, x: Proc, most: nat)
    requires p < |procs|
    ensures Unused(procs[p := x], most)
         == Unused(procs, most) - (if procs[p].Active? then most - procs[p].added else 0)
                                + if x.Active? then most - x.added else 0
  {
    var m := |procs| - 1;
    if p < m {
      UnusedUpdate(procs[..m], p, x, most);
      assert procs[p := x][..m] == procs[..m][p := x];
    } else {
      assert procs[p := x][..m] == procs[..m];
    }
  }

  lemma {:induction false} UnusedBounds(procs: seq<Proc>, most: nat)
    ensures Unused(procs, most) <= most * Count(procs)
    ensures (forall p :: 0 <= p < |procs| && procs[p].Active? ==> procs[p].added <= most) ==> 0 <= Unused(procs, most)
    ensures (forall p :: 0 <= p < |procs| ==> procs[p].Idle?) ==> Unused(procs, most) == 0
  {
    if procs != [] {
      var m := |procs| - 1;
      UnusedBounds(procs[..m], most);
      assert forall p :: 0 <= p < m ==> procs[..m][p] == procs[p];
      assert procs[m].Active? ==> most * (Count(procs[..m]) + 1) == most * Count(procs[..m]) + most;
    }
  }

  /** Every operation stays within `most` new blocks. */
  ghost predicate Disciplined(s: State, most: nat) {
    forall p :: 0 <= p < |s.procs| && s.procs[p].Active? ==> s.procs[p].added <= most
  }

  ghost predicate DisciplinedRun(L: Layout, s: State, steps: seq<Step>, most: nat)
    decreases |steps|
  {
    && Disciplined(s, most)
    && (steps != [] && Enabled(L, s, steps[0]) ==> DisciplinedRun(L, Next(L, s, steps[0]), steps[1..], most))
  }

  /** The header and what the operations in progress may still add stay within the peak; an idle log is empty. */
  ghost predicate Reserved(s: State, most: nat) {
    && |s.lh| + Unused(s.procs, most) <= Peak(most)
    && (s.phase.Running? && s.outstanding == 0 ==> s.lh == [])
  }

  lemma KeepReserved(L: Layout, s: State, step: Step, most: nat)
    requires Enabled(L, s, step) && Bookkeeping(s) && Reserved(s, most) && most <= MAXOPBLOCKS
    requires Disciplined(s, most) && Disciplined(Next(L, s, step), most)
    ensures Reserved(Next(L, s, step), most)
  {
    hide CommitPrefix, Recovered, Survive, WfDisk, WfBlocks, Count, Unused;
    var s' := Next(L, s, step);
    UnusedBounds(s.procs, most);
    UnusedBounds(s'.procs, most);
    CountZero(s.procs);
    match step
    case Begin(p) => ReservedBegin(L, s, p, most);
    case Guard(p) => UnusedUpdate(s.procs, p, s.procs[p].(checked := true), most);
    case Append(p, b, data) => UnusedUpdate(s.procs, p, s'.procs[p], most);
    case End(p) => UnusedUpdate(s.procs, p, Idle, most);
    case _ =>
  }

  lemma ReservedBegin(L: Layout, s: State, p: nat, most: nat)
    requires Enabled(L, s, Begin(p)) && Bookkeeping(s) && Reserved(s, most) && most <= MAXOPBLOCKS
    ensures Reserved(Next(L, s, Begin(p)), most)
  {
    hide Count, Unused;
    UnusedBounds(s.procs, most);
    UnusedUpdate(s.procs, p, Active(s.nextOp, 0, false), most);
    BeginRoom(|s.lh|, s.outstanding + 1, most);
    assert most * s.outstanding + most == most * (s.outstanding + 1);
  }

  /** The test of begin_op, for the n-th operation in progress. */
  lemma BeginRoom(used: nat, n: int, most: nat)
    requires 1 <= n && used + n * MAXOPBLOCKS <= LOGSIZE && (n == 1 ==> used == 0) && most <= MAXOPBLOCKS
    ensures used + most * n <= Peak(most)
  {
    assert n == 1 || n == 2 || n == 3;
  }

  /**
    Reservation: if every operation adds at most `most` blocks, then in every reachable state
    the header plus all that may still be added stay within the peak, which is LOGSIZE for
    `most == MAXOPBLOCKS`.
    */
  lemma {:induction false} ReservationHolds(L: Layout, s: State, steps: seq<Step>, s': State, most: nat)
    requires Bookkeeping(s) && Reserved(s, most) && most <= MAXOPBLOCKS
    requires Run(L, s, steps, s') && DisciplinedRun(L, s, steps, most)
    ensures Bookkeeping(s') && Reserved(s', most) && |s'.lh| <= Peak(most) <= LOGSIZE
    decreases |steps|
  {
    if steps == [] {
      UnusedBounds(s.procs, most);
    } else {
      KeepBookkeeping(L, s, steps[0]);
      KeepReserved(L, s, steps[0], most);
      ReservationHolds(L, Next(L, s, steps[0]), steps[1..], s', most);
    }
  }

  /** With a log area larger than the peak, a disciplined run never overruns the log. */
  lemma {:induction false} DisciplinedFits(L: Layout, s: State, steps: seq<Step>, s': State, most: nat)
    requires most <= MAXOPBLOCKS && Peak(most) < L.size
    requires Bookkeeping(s) && Reserved(s, most) && Run(L, s, steps, s') && DisciplinedRun(L, s, steps, most)
    ensures Fits(L, s, steps)
    decreases |steps|
  {
    UnusedBounds(s.procs, most);
    if steps != [] {
      KeepBookkeeping(L, s, steps[0]);
      KeepReserved(L, s, steps[0], most);
      DisciplinedFits(L, Next(L, s, steps[0]), steps[1..], s', most);
    }
  }

  lemma InitReserved(L: Layout, d: Disk, s: State, most: nat)
    requires Init(L, d, s)
    ensures Bookkeeping(s) && Reserved(s, most) && Guarded(L, s) && Disciplined(s, most)
  {
    CountZero(s.procs);
    UnusedBounds(s.procs, most);
  }

  /**
    Operations are atomic across any interleaving and any number of crashes, and the panics
    "log.committing" and "log_write outside of trans" are not reached, and when no operation is
    in progress and the last commit has finished, every write is durable: in every run in which
    log_write is never entered twice at once, whatever is logged, and in every run of
    operations that add at most `most` blocks each, if the log area is larger than the peak.
    For the area of LOGSIZE blocks that mkfs makes this is `most == 9`.
    */
  lemma OperationsAreAtomic(L: Layout, d: Disk, s: State, steps: seq<Step>, s': State, ks: seq<nat>, most: nat)
    requires Init(L, d, s) && Run(L, s, steps, s')
    requires SerialRun(L, s, steps) || (most <= MAXOPBLOCKS && Peak(most) < L.size && DisciplinedRun(L, s, steps, most))
    ensures Atomic(L, d, s', ks) && (Settled(s') ==> s'.cut == |s'.writes|)
    ensures s'.phase.Committing? ==> s'.outstanding == 0
    ensures s'.panic != EndWhileCommitting && s'.panic != OutsideTransaction
  {
    InitReserved(L, d, s, most);
    if SerialRun(L, s, steps) {
      SerialFits(L, s, steps);
    } else {
      DisciplinedFits(L, s, steps, s', most);
    }
    FittingRunsAreAtomic(L, d, s, steps, s', ks);
  }

  // ----- what the operations have written

  /** The operation that each process of `ids` is in; `next` is the number of the next operation. */
  function Issued(steps: seq<Step>, ids: map<nat, nat>, next: nat): (ws: seq<Write>)
    decreases |steps|
  {
    if steps == [] then []
    else
      match steps[0]
      case Begin(p) => Issued(steps[1..], ids[p := next], next + 1)
      case Append(p, b, data) =>
        (if p in ids then [Write(ids[p], b, data)] else []) + Issued(steps[1..], ids, next)
      case End(p) => Issued(steps[1..], ids - {p}, next)
      case _ => Issued(steps[1..], ids, next)
  }

  function Ids(procs: seq<Proc>): (ids: map<nat, nat>) {
    map p: nat | p < |procs| && procs[p].Active? :: procs[p].id
  }

  ghost predicate NoCrash(steps: seq<Step>) {
    forall i :: 0 <= i < |steps| ==> !steps[i].Crash?
  }

  lemma IdsUpdate(procs: seq<Proc>, p: nat, x: Proc)
    requires p < |procs|
    ensures Ids(procs[p := x]) == if x.Active? then Ids(procs)[p := x.id] else Ids(procs) - {p}
  {
  }

  /**
    Between power failures the history is what the steps say: the writes that the processes
    pass to log_write, in order, each under the number of its operation.
    */
  lemma {:induction false} WritesAreIssued(L: Layout, s: State, steps: seq<Step>, s': State)
    requires Run(L, s, steps, s') && NoCrash(steps)
    ensures s'.writes == s.writes + Issued(steps, Ids(s.procs), s.nextOp)
    decreases |steps|
  {
    hide CommitPrefix, Recovered, Survive, WfDisk, WfBlocks, Ids;
    if steps == [] {
      assert s.writes + [] == s.writes;
    } else {
      var t, ids := Next(L, s, steps[0]), Ids(s.procs);
      WritesAreIssued(L, t, steps[1..], s');
      StepIds(L, s, steps[0]);
      if steps[0].Append? {
        var w := Write(ids[steps[0].p], steps[0].block, steps[0].data);
        assert s.writes + [w] + Issued(steps[1..], ids, s.nextOp) == s.writes + ([w] + Issued(steps[1..], ids, s.nextOp));
      }
    }
  }

  lemma StepIds(L: Layout, s: State, step: Step)
    requires Enabled(L, s, step) && !step.Crash?
    ensures var t, ids := Next(L, s, step), Ids(s.procs);
      && Ids(t.procs) == (match step { case Begin(p) => ids[p := s.nextOp] case End(p) => ids - {p} case _ => ids })
      && t.nextOp == s.nextOp + (if step.Begin? then 1 else 0)
      && (step.Append? ==> step.p in ids && t.writes == s.writes + [Write(ids[step.p], step.block, step.data)])
      && (!step.Append? ==> t.writes == s.writes)
  {
    hide CommitPrefix, Recovered, Survive, WfDisk, WfBlocks;
    var t, ids := Next(L, s, step), Ids(s.procs);
    match step
    case Begin(p) => IdsUpdate(s.procs, p, t.procs[p]);
    case Guard(p) =>
      IdsUpdate(s.procs, p, s.procs[p].(checked := true));
      assert ids[p := s.procs[p].id] == ids;
    case Append(p, b, data) =>
      IdsUpdate(s.procs, p, t.procs[p]);
      assert ids[p := s.procs[p].id] == ids;
    case End(p) => IdsUpdate(s.procs, p, Idle);
    case _ =>
  }

  // ----- two processes can fill the log up to the peak

  lemma {:induction false} RunSnoc(L: Layout, s: State, steps: seq<Step>, s': State, step: Step, most: nat)
    requires Run(L, s, steps, s') && DisciplinedRun(L, s, steps, most)
    requires Enabled(L, s', step) && Disciplined(Next(L, s', step), most)
    ensures Run(L, s, steps + [step], Next(L, s', step)) && DisciplinedRun(L, s, steps + [step], most)
    decreases |steps|
  {
    hide Disciplined, Enabled, Next;
    if steps == [] {
      assert ([step])[1..] == [];
      assert Run(L, Next(L, s, step), [], Next(L, s', step));
    } else {
      RunSnoc(L, Next(L, s, steps[0]), steps[1..], s', step, most);
      assert (steps + [step])[1..] == steps[1..] + [step];
    }
  }

  /** Distinct blocks outside the log area, as many as a header can hold. */
  ghost predicate HomeBlocks(L: Layout, d: Disk, hs: seq<nat>) {
    && |hs| == LOGSIZE
    && (forall i :: 0 <= i < |hs| ==> hs[i] < |d| && !L.InLog(hs[i]))
    && (forall i, j :: 0 <= i < j < |hs| ==> hs[i] != hs[j])
  }

  /**
    Two operations are open and `j` different blocks are logged: the first ten by short
    operations that have ended, then `each` by the first open one, the rest by the second.
    */
  ghost predicate Filled(d: Disk, s: State, hs: seq<nat>, j: nat, each: nat) {
    && 2 <= |s.procs| && (forall p :: 2 <= p < |s.procs| ==> s.procs[p].Idle?)
    && (forall p :: 0 <= p < 2 ==> s.procs[p].Active? && !s.procs[p].checked)
    && s.procs[0].added == (if j <= MAXOPBLOCKS then 0 else if j <= MAXOPBLOCKS + each then j - MAXOPBLOCKS else each)
    && s.procs[1].added == (if j <= MAXOPBLOCKS + each then 0 else j - MAXOPBLOCKS - each)
    && s.outstanding == 2 && s.phase.Running? && s.panic.NoPanic? && |s.store| == |d|
    && |s.lh| == j <= |hs| && (forall i :: 0 <= i < j ==> s.lh[i] == hs[i])
  }

  /** A short operation of the second process logs one block. */
  lemma FillShort(L: Layout, d: Disk, s: State, steps: seq<Step>, t: State, hs: seq<nat>, j: nat, each: nat, most: nat)
    returns (steps': seq<Step>, t': State)
    requires HomeBlocks(L, d, hs) && Run(L, s, steps, t) && DisciplinedRun(L, s, steps, most) && 1 <= most
    requires Filled(d, t, hs, j, each) && j < MAXOPBLOCKS && j < L.size - 1
    ensures Run(L, s, steps', t') && DisciplinedRun(L, s, steps', most) && Filled(d, t', hs, j + 1, each)
  {
    hide Run, DisciplinedRun;
    var a := Append(1, hs[j], []);
    var u := Next(L, t, Guard(1));
    assert (hs[j] as int) !in u.lh;
    var v := Next(L, u, a);
    var w := Next(L, v, End(1));
    RunSnoc(L, s, steps, t, Guard(1), most);
    RunSnoc(L, s, steps + [Guard(1)], u, a, most);
    RunSnoc(L, s, steps + [Guard(1)] + [a], v, End(1), most);
    RunSnoc(L, s, steps + [Guard(1)] + [a] + [End(1)], w, Begin(1), most);
    steps', t' := steps + [Guard(1)] + [a] + [End(1)] + [Begin(1)], Next(L, w, Begin(1));
  }

  /** One of the two open operations logs one block. */
  lemma FillOpen(L: Layout, d: Disk, s: State, steps: seq<Step>, t: State, hs: seq<nat>, j: nat, each: nat, most: nat)
    returns (steps': seq<Step>, t': State)
    requires HomeBlocks(L, d, hs) && Run(L, s, steps, t) && DisciplinedRun(L, s, steps, most) && each <= most
    requires Filled(d, t, hs, j, each) && MAXOPBLOCKS <= j < Peak(each) && j < L.size - 1 && j < LOGSIZE
    ensures Run(L, s, steps', t') && DisciplinedRun(L, s, steps', most) && Filled(d, t', hs, j + 1, each)
  {
    hide Run, DisciplinedRun;
    var p := if j < MAXOPBLOCKS + each then 0 else 1;
    var a := Append(p, hs[j], []);
    var u := Next(L, t, Guard(p));
    assert (hs[j] as int) !in u.lh;
    RunSnoc(L, s, steps, t, Guard(p), most);
    RunSnoc(L, s, steps + [Guard(p)], u, a, most);
    steps', t' := steps + [Guard(p)] + [a], Next(L, u, a);
  }

  lemma {:induction false} Fill(L: Layout, d: Disk, s: State, hs: seq<nat>, j: nat, each: nat, most: nat)
    returns (steps: seq<Step>, t: State)
    requires HomeBlocks(L, d, hs) && Init(L, d, s) && 2 <= |s.procs| && each <= most && 1 <= most
    requires j <= Peak(each) && j <= L.size - 1 && j <= LOGSIZE
    ensures Run(L, s, steps, t) && DisciplinedRun(L, s, steps, most) && Filled(d, t, hs, j, each)
  {
    if j == 0 {
      var a := Next(L, s, Begin(0));
      RunSnoc(L, s, [], s, Begin(0), most);
      RunSnoc(L, s, [] + [Begin(0)], a, Begin(1), most);
      steps, t := [] + [Begin(0)] + [Begin(1)], Next(L, a, Begin(1));
    } else {
      steps, t := Fill(L, d, s, hs, j - 1, each, most);
      if j <= MAXOPBLOCKS {
        steps, t := FillShort(L, d, s, steps, t, hs, j - 1, each, most);
      } else {
        steps, t := FillOpen(L, d, s, steps, t, hs, j - 1, each, most);
      }
    }
  }

  /**
    The guard of `log_write` is evaluated outside the lock.  With a log area of 2 blocks up to
    the peak, two processes whose operations stay within `most` blocks can reach a state whose
    header has one entry more than the area has copies: both pass the guard while one place
    is left, and both append.  No panic has fired.
    */
  lemma LogOverrun(L: Layout, d: Disk, s: State, hs: seq<nat>, most: nat) returns (steps: seq<Step>, t: State)
    requires 1 <= most <= MAXOPBLOCKS && 2 <= L.size <= Peak(most)
    requires HomeBlocks(L, d, hs) && Init(L, d, s) && 2 <= |s.procs|
    ensures Run(L, s, steps, t) && DisciplinedRun(L, s, steps, most)
    ensures t.panic.NoPanic? && |t.lh| == L.size && !Fits(L, t, [])
  {
    hide Run, DisciplinedRun;
    var j := L.size - 2;
    steps, t := Fill(L, d, s, hs, j, most - 1, most);
    RunSnoc(L, s, steps, t, Guard(0), most);
    steps, t := steps + [Guard(0)], Next(L, t, Guard(0));
    RunSnoc(L, s, steps, t, Guard(1), most);
    steps, t := steps + [Guard(1)], Next(L, t, Guard(1));
    var a0, a1 := Append(0, hs[j], []), Append(1, hs[j + 1], []);
    assert (hs[j] as int) !in t.lh && (hs[j + 1] as int) !in t.lh;
    RunSnoc(L, s, steps, t, a0, most);
    steps, t := steps + [a0], Next(L, t, a0);
    assert (hs[j + 1] as int) !in t.lh;
    RunSnoc(L, s, steps, t, a1, most);
    steps, t := steps + [a1], Next(L, t, a1);
  }

  /** Committing such a header, write_log puts the last copy on the block behind the log area. */
  lemma OverrunHitsHome(L: Layout, d: Disk, store: Disk, lh: seq<int>)
    requires 0 < |lh| == L.size && L.start + L.size < |d| && forall i :: 0 <= i < |lh| ==> 0 <= lh[i] < |store|
    ensures !L.InLog(L.start + L.size)
    ensures LogCopy(d, L, store, lh, |lh|)[L.start + L.size] == store[lh[|lh| - 1]]
  {
    hide LogCopy;
    LogCopyNext(d, L, store, lh, |lh| - 1);
  }

  lemma {:induction false} FitsAtEnd(L: Layout, s: State, steps: seq<Step>, t: State)
    requires Run(L, s, steps, t) && Fits(L, s, steps)
    ensures |t.lh| < L.size
    decreases |steps|
  {
    hide Enabled, Next;
    if steps != [] {
      FitsAtEnd(L, Next(L, s, steps[0]), steps[1..], t);
    }
  }

  /**
    Operations of at most `most` blocks are safe from overrunning the log exactly when the
    area is larger than the peak, or there is at most one process, or the area has no room
    for a copy at all.  For `most == MAXOPBLOCKS` the peak is LOGSIZE.
    */
  lemma LogAreaMustExceedPeak(L: Layout, d: Disk, s: State, hs: seq<nat>, most: nat)
    requires 1 <= most <= MAXOPBLOCKS && HomeBlocks(L, d, hs) && Init(L, d, s)
    ensures Peak(most) < L.size || |s.procs| <= 1 || L.size == 1 <==>
      forall steps, t :: Run(L, s, steps, t) && DisciplinedRun(L, s, steps, most) ==> Fits(L, s, steps)
  {
    hide Run, DisciplinedRun, Fits, Enabled, Next;
    InitReserved(L, d, s, most);
    if Peak(most) < L.size {
      forall steps, t | Run(L, s, steps, t) && DisciplinedRun(L, s, steps, most) ensures Fits(L, s, steps) {
        DisciplinedFits(L, s, steps, t, most);
      }
    } else if |s.procs| <= 1 || L.size == 1 {
      forall steps, t | Run(L, s, steps, t) && DisciplinedRun(L, s, steps, most) ensures Fits(L, s, steps) {
        NoRace(L, s, steps);
        SerialFits(L, s, steps);
      }
    } else {
      var steps, t := LogOverrun(L, d, s, hs, most);
      if Fits(L, s, steps) {
        FitsAtEnd(L, s, steps, t);
      }
    }
  }

  // ----- "too big a transaction"

  /** Two processes whose operations stay within `most` blocks fill the log and meet the panic. */
  lemma TooBigReached(L: Layout, d: Disk, s: State, hs: seq<nat>, most: nat) returns (steps: seq<Step>, t: State)
    requires 1 <= most <= MAXOPBLOCKS && (LOGSIZE <= Peak(most) || L.size - 1 <= Peak(most))
    requires HomeBlocks(L, d, hs) && Init(L, d, s) && 2 <= |s.procs|
    ensures Run(L, s, steps, t) && DisciplinedRun(L, s, steps, most) && t.panic.TooBig?
  {
    hide Run, DisciplinedRun;
    steps, t := Fill(L, d, s, hs, if L.size - 1 <= LOGSIZE then L.size - 1 else LOGSIZE, most, most);
    RunSnoc(L, s, steps, t, Guard(1), most);
    steps, t := steps + [Guard(1)], Next(L, t, Guard(1));
  }

  lemma {:induction false} NeverTooBig(L: Layout, s: State, steps: seq<Step>, t: State, most: nat)
    requires most <= MAXOPBLOCKS && Peak(most) < LOGSIZE && Peak(most) < L.size - 1
    requires Bookkeeping(s) && Reserved(s, most) && s.panic != TooBig
    requires Run(L, s, steps, t) && DisciplinedRun(L, s, steps, most)
    ensures t.panic != TooBig
    decreases |steps|
  {
    hide CommitPrefix, Recovered, Survive;
    UnusedBounds(s.procs, most);
    if steps != [] {
      KeepBookkeeping(L, s, steps[0]);
      KeepReserved(L, s, steps[0], most);
      NeverTooBig(L, Next(L, s, steps[0]), steps[1..], t, most);
    }
  }

  /**
    The exact bound on operations for which the panic is out of reach: 9 blocks for the area
    that mkfs makes, one less than MAXOPBLOCKS.
    */
  lemma TooBigIsExact(L: Layout, d: Disk, s: State, hs: seq<nat>, most: nat)
    requires 1 <= most <= MAXOPBLOCKS && HomeBlocks(L, d, hs) && Init(L, d, s) && 2 <= |s.procs|
    ensures Peak(most) < LOGSIZE && Peak(most) < L.size - 1 <==>
      forall steps, t :: Run(L, s, steps, t) && DisciplinedRun(L, s, steps, most) ==> t.panic != TooBig
  {
    hide Run, DisciplinedRun, Enabled, Next;
    InitReserved(L, d, s, most);
    if Peak(most) < LOGSIZE && Peak(most) < L.size - 1 {
      forall steps, t | Run(L, s, steps, t) && DisciplinedRun(L, s, steps, most) ensures t.panic != TooBig {
        NeverTooBig(L, s, steps, t, most);
      }
    } else {
      var steps, t := TooBigReached(L, d, s, hs, most);
    }
  }

  // ----- one large operation per group

  /** Every operation of the run starts on an empty header with nobody else inside, and adds at most `most` blocks. */
  ghost predicate SoloRun(L: Layout, s: State, steps: seq<Step>, most: nat)
    decreases |steps|
  {
    steps != [] && Enabled(L, s, steps[0]) ==>
      && (steps[0].Begin? ==> s.lh == [] && s.outstanding == 0)
      && (forall p :: 0 <= p < |s.procs| && s.procs[p].Active? ==> s.procs[p].added <= most)
      && SoloRun(L, Next(L, s, steps[0]), steps[1..], most)
  }

  ghost predicate Solo(s: State) {
    && (forall p :: 0 <= p < |s.procs| && s.procs[p].Active? ==> |s.lh| <= s.procs[p].added)
    && (forall p, q :: 0 <= p < q < |s.procs| ==> s.procs[p].Idle? || s.procs[q].Idle?)
  }

  /** An operation alone in its group that logs fewer than `L.size - 1` blocks never meets "too big a transaction". */
  lemma {:induction false} SoloNeverTooBig(L: Layout, s: State, steps: seq<Step>, s': State, most: nat)
    requires Bookkeeping(s) && Solo(s) && s.panic.NoPanic?
    requires most < LOGSIZE && most < L.size - 1
    requires Run(L, s, steps, s') && SoloRun(L, s, steps, most)
    ensures s'.panic.NoPanic?
    decreases |steps|
  {
    hide CommitPrefix, Recovered, Survive;
    if steps != [] {
      KeepBookkeeping(L, s, steps[0]);
      CountZero(s.procs);
      SoloNeverTooBig(L, Next(L, s, steps[0]), steps[1..], s', most);
    }
  }

  /** Every operation starts on an empty header with nobody else inside, and logs only blocks of the set given for it. */
  ghost predicate AloneRun(L: Layout, s: State, steps: seq<Step>, blocks: map<nat, set<nat>>)
    decreases |steps|
  {
    steps != [] && Enabled(L, s, steps[0]) ==>
      && (steps[0].Begin? ==> s.lh == [] && s.outstanding == 0)
      && (steps[0].Append? ==> s.procs[steps[0].p].id in blocks && steps[0].block in blocks[s.procs[steps[0].p].id])
      && AloneRun(L, Next(L, s, steps[0]), steps[1..], blocks)
  }

  /** The header of an operation in progress holds what it added, each block once, all from its set. */
  ghost predicate Alone(s: State, blocks: map<nat, set<nat>>) {
    && (forall p, q :: 0 <= p < q < |s.procs| ==> s.procs[p].Idle? || s.procs[q].Idle?)
    && (forall i, j :: 0 <= i < j < |s.lh| ==> s.lh[i] != s.lh[j])
    && (forall p :: 0 <= p < |s.procs| && s.procs[p].Active? ==> OwnHeader(s.procs[p], s.lh, blocks))
  }

  ghost predicate OwnHeader(x: Proc, lh: seq<int>, blocks: map<nat, set<nat>>)
    requires x.Active?
  {
    && x.added == |lh|
    && (lh != [] ==> x.id in blocks && forall i :: 0 <= i < |lh| ==> 0 <= lh[i] && lh[i] in blocks[x.id])
  }

  lemma {:induction false} HeaderSize(lh: seq<int>, b: set<nat>)
    requires (forall i :: 0 <= i < |lh| ==> 0 <= lh[i] && lh[i] in b) && forall i, j :: 0 <= i < j < |lh| ==> lh[i] != lh[j]
    ensures |lh| <= |b|
  {
    if lh != [] {
      var m := |lh| - 1;
      var x: nat := lh[m];
      HeaderSize(lh[..m], b - {x});
    }
  }

  lemma KeepAlone(L: Layout, s: State, step: Step, blocks: map<nat, set<nat>>)
    requires Enabled(L, s, step) && Bookkeeping(s) && Alone(s, blocks)
    requires step.Begin? ==> s.lh == [] && s.outstanding == 0
    requires step.Append? ==> s.procs[step.p].id in blocks && step.block in blocks[s.procs[step.p].id]
    ensures Alone(Next(L, s, step), blocks)
  {
    hide CommitPrefix, Recovered, Survive, WfDisk, WfBlocks, Count;
    CountZero(s.procs);
  }

  /** If each set has at most `most` blocks, such a run is one of operations that add at most `most`. */
  lemma {:induction false} AloneIsSolo(L: Layout, s: State, steps: seq<Step>, blocks: map<nat, set<nat>>, most: nat)
    requires Bookkeeping(s) && Alone(s, blocks) && AloneRun(L, s, steps, blocks) && forall id :: id in blocks ==> |blocks[id]| <= most
    ensures SoloRun(L, s, steps, most)
    decreases |steps|
  {
    hide Next, Enabled, Bookkeeping;
    if steps != [] && Enabled(L, s, steps[0]) {
      forall p | 0 <= p < |s.procs| && s.procs[p].Active? ensures s.procs[p].added <= most {
        assert OwnHeader(s.procs[p], s.lh, blocks);
        if s.lh != [] {
          HeaderSize(s.lh, blocks[s.procs[p].id]);
        }
      }
      KeepBookkeeping(L, s, steps[0]);
      KeepAlone(L, s, steps[0], blocks);
      AloneIsSolo(L, Next(L, s, steps[0]), steps[1..], blocks, most);
    }
  }

  /** Operations alone in their groups, each with its own small set of blocks, never meet a panic. */
  lemma AloneNeverPanics(L: Layout, d: Disk, s: State, steps: seq<Step>, s': State, blocks: map<nat, set<nat>>, most: nat)
    requires Init(L, d, s) && Run(L, s, steps, s') && AloneRun(L, s, steps, blocks)
    requires most < LOGSIZE && most < L.size - 1 && forall id :: id in blocks ==> |blocks[id]| <= most
    ensures s'.panic.NoPanic?
  {
    InitReserved(L, d, s, 0);
    AloneIsSolo(L, s, steps, blocks, most);
    SoloNeverTooBig(L, s, steps, s', most);
  }
}
