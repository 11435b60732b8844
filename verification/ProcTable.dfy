/**
  The process table: fork, exit, wait, sleep, wakeup and kill as steps over NPROC slots.
  A step is one section under ptable.lock, or one of the unlocked writes inside fork.
  */
module ProcTable {

  const NPROC: nat := 64
  const NONE := -1       // no parent

  datatype RunState = UNUSED | EMBRYO | SLEEPING | RUNNABLE | RUNNING | ZOMBIE

  datatype Chan = NoChan | OfProc(i: int) | Other(id: int)

  /** What a process is doing in the kernel. */
  datatype Task =
    | User
    | Forking(np: nat, linked: bool)    // has allocated slot np; linked once np->parent is set
    | Waiting                           // asleep in wait, or woken and about to scan again
    | Asleep                            // asleep elsewhere

  datatype Proc = Proc(state: RunState, pid: int, parent: int, chan: Chan, killed: bool, task: Task)

  /** `reaped` is the history of pids returned by wait. */
  datatype Table = Table(procs: seq<Proc>, nextpid: int, init: nat, reaped: seq<int>)

  // ----- the functions of proc.c on the slots

  /** wakeup1. */
  function Wakeup(procs: seq<Proc>, c: Chan): (r: seq<Proc>)
    ensures |r| == |procs|
    ensures forall i :: 0 <= i < |r| ==> r[i] == Awake(procs[i], c)
  {
    seq(|procs|, i requires 0 <= i < |procs| => Awake(procs[i], c))
  }

  function Awake(x: Proc, c: Chan): Proc {
    if x.state == SLEEPING && x.chan == c then x.(state := RUNNABLE) else x
  }

  function ChanOf(parent: int): Chan {
    if parent == NONE then NoChan else OfProc(parent)
  }

  /** The lowest index at or above `from` whose slot satisfies `f`, or the length. */
  function First(procs: seq<Proc>, f: Proc -> bool, from: nat): (k: nat)
    requires from <= |procs|
    ensures from <= k <= |procs|
    ensures forall i :: from <= i < k ==> !f(procs[i])
    ensures k < |procs| ==> f(procs[k])
    decreases |procs| - from
  {
    if from == |procs| || f(procs[from]) then from else First(procs, f, from + 1)
  }

  /** exit, for the process in slot `p`: wake the parent, hand the children to init, become a zombie. */
  function Exited(procs: seq<Proc>, p: nat, init: nat): (r: seq<Proc>)
    requires p < |procs|
    ensures |r| == |procs|
  {
    var a := Wakeup(procs, ChanOf(procs[p].parent));
    var b := Adopted(a, p, init);
    var c := if exists j :: 0 <= j < |a| && a[j].parent == p && a[j].state == ZOMBIE then Wakeup(b, OfProc(init)) else b;
    c[p := c[p].(state := ZOMBIE, task := User)]
  }

  /** Every child of `p` becomes a child of init. */
  function Adopted(procs: seq<Proc>, p: nat, init: nat): (r: seq<Proc>)
    ensures |r| == |procs|
    ensures forall j :: 0 <= j < |r| ==> r[j] == if procs[j].parent == p then procs[j].(parent := init) else procs[j]
  {
    seq(|procs|, j requires 0 <= j < |procs| => if procs[j].parent == p then procs[j].(parent := init) else procs[j])
  }

  predicate ZombieChild(x: Proc, p: nat) {
    x.parent == p && x.state == ZOMBIE
  }

  // ----- steps

  datatype Step =
    | Alloc(p: nat)          // fork: allocproc's locked part
    | AllocFails(p: nat)     // fork: kalloc or copyuvm failed, the slot becomes UNUSED again
    | Link(p: nat)           // fork: np->parent = proc
    | ForkDone(p: nat)       // fork: np->state = RUNNABLE
    | Exit(p: nat)
    | Wait(p: nat)           // one scan of wait
    | Sleep(p: nat, id: int)
    | WakeOther(id: int)     // wakeup on a channel that is not a process
    | Yield(p: nat)
    | Schedule(p: nat)
    | Kill(pid: int)

  predicate Running(t: Table, p: nat, task: Task) {
    p < |t.procs| && t.procs[p].state == RUNNING && t.procs[p].task == task
  }

  predicate InFork(t: Table, p: nat) {
    && p < |t.procs| && t.procs[p].state == RUNNING
    && t.procs[p].task.Forking? && t.procs[p].task.np < |t.procs|
  }

  predicate Enabled(t: Table, step: Step) {
    match step
    case Alloc(p) => Running(t, p, User)
    case AllocFails(p) => InFork(t, p) && !t.procs[p].task.linked
    case Link(p) => InFork(t, p) && !t.procs[p].task.linked
    case ForkDone(p) => InFork(t, p) && t.procs[p].task.linked
    case Exit(p) => Running(t, p, User) && p != t.init
    case Wait(p) => Running(t, p, User) || Running(t, p, Waiting)
    case Sleep(p, id) => Running(t, p, User)
    case WakeOther(id) => true
    case Yield(p) => p < |t.procs| && t.procs[p].state == RUNNING
    case Schedule(p) => p < |t.procs| && t.procs[p].state == RUNNABLE
    case Kill(pid) => true
  }

  /** allocproc, on behalf of the forking process `p`. */
  function Allocated(t: Table, p: nat): (t': Table)
    requires p < |t.procs|
  {
    var np := First(t.procs, IsUnused, 0);
    if np == |t.procs| then t
    else
      t.(procs := t.procs[np := t.procs[np].(state := EMBRYO, pid := t.nextpid, task := User)]
                        [p := t.procs[p].(task := Forking(np, false))],
         nextpid := t.nextpid + 1)
  }

  predicate IsUnused(x: Proc) { x.state == UNUSED }

  /** One scan of wait by process `p`. */
  function Scanned(t: Table, p: nat): (t': Table)
    requires p < |t.procs|
  {
    var z := First(t.procs, (x: Proc) => ZombieChild(x, p), 0);
    if z < |t.procs| then Reaped(t, p, z)
    else if First(t.procs, (x: Proc) => x.parent == p, 0) == |t.procs| || t.procs[p].killed then
      t.(procs := t.procs[p := t.procs[p].(task := User)])
    else
      t.(procs := t.procs[p := t.procs[p].(state := SLEEPING, chan := OfProc(p), task := Waiting)])
  }

  /** wait has found the zombie child in slot `z`. */
  function Reaped(t: Table, p: nat, z: nat): (t': Table)
    requires p < |t.procs| && z < |t.procs|
  {
    t.(procs := t.procs[z := Proc(UNUSED, 0, NONE, t.procs[z].chan, false, User)][p := t.procs[p].(task := User)],
       reaped := t.reaped + [t.procs[z].pid])
  }

  /** kill: the first slot with that pid, in use or not. */
  function Killed(procs: seq<Proc>, pid: int): (r: seq<Proc>) {
    var k := First(procs, (x: Proc) => x.pid == pid, 0);
    if k == |procs| then procs
    else
      var x := procs[k].(killed := true);
      procs[k := if x.state == SLEEPING then x.(state := RUNNABLE) else x]
  }

  function Next(t: Table, step: Step): (t': Table)
    requires Enabled(t, step)
  {
    match step
    case Alloc(p) => Allocated(t, p)
    case AllocFails(p) =>
      var np := t.procs[p].task.np;
      t.(procs := t.procs[np := t.procs[np].(state := UNUSED)][p := t.procs[p].(task := User)])
    case Link(p) =>
      var np := t.procs[p].task.np;
      t.(procs := t.procs[np := t.procs[np].(parent := p)][p := t.procs[p].(task := Forking(np, true))])
    case ForkDone(p) =>
      var np := t.procs[p].task.np;
      t.(procs := t.procs[np := t.procs[np].(state := RUNNABLE)][p := t.procs[p].(task := User)])
    case Exit(p) => t.(procs := Exited(t.procs, p, t.init))
    case Wait(p) => Scanned(t, p)
    case Sleep(p, id) => t.(procs := t.procs[p := t.procs[p].(state := SLEEPING, chan := Other(id), task := Asleep)])
    case WakeOther(id) => t.(procs := Wakeup(t.procs, Other(id)))
    case Yield(p) => t.(procs := t.procs[p := t.procs[p].(state := RUNNABLE)])
    case Schedule(p) =>
      var x := t.procs[p].(state := RUNNING, chan := NoChan);
      t.(procs := t.procs[p := if x.task == Asleep then x.(task := User) else x])
    case Kill(pid) => t.(procs := Killed(t.procs, pid))
  }

  // ----- invariants

  predicate Alive(x: Proc) {
    x.state == SLEEPING || x.state == RUNNABLE || x.state == RUNNING
  }

  /** The parent of a process in use is alive; only init and an embryo not yet linked have none. */
  ghost predicate Parents(t: Table) {
    && t.init < |t.procs| && Alive(t.procs[t.init]) && t.procs[t.init].parent == NONE
    && forall i :: 0 <= i < |t.procs| ==> ParentAt(t, i)
  }

  predicate ParentAt(t: Table, i: nat)
    requires i < |t.procs|
  {
    var x := t.procs[i];
    && (x.parent != NONE ==>
          x.state != UNUSED && 0 <= x.parent < |t.procs| && x.parent != i && Alive(t.procs[x.parent]))
    && ((Alive(x) || x.state == ZOMBIE) && i != t.init ==> x.parent != NONE)
  }

  /** A slot has a process forking into it only while it is an embryo, and then exactly one. */
  ghost predicate Embryos(t: Table) {
    && (forall p :: 0 <= p < |t.procs| ==> EmbryoAt(t, p))
    && (forall p, q :: 0 <= p < q < |t.procs| && t.procs[p].task.Forking? && t.procs[q].task.Forking? ==>
          t.procs[p].task.np != t.procs[q].task.np)
  }

  predicate EmbryoAt(t: Table, p: nat)
    requires p < |t.procs|
  {
    var x := t.procs[p];
    && (x.task.Forking? ==>
          && (x.state == RUNNING || x.state == RUNNABLE)
          && x.task.np < |t.procs| && t.procs[x.task.np].state == EMBRYO
          && t.procs[x.task.np].parent == if x.task.linked then p else NONE)
    && (x.state == EMBRYO && 0 <= x.parent < |t.procs| ==> t.procs[x.parent].task == Forking(p, true))
  }

  ghost predicate Pids(t: Table) {
    && 0 < t.nextpid && (forall i :: 0 <= i < |t.procs| ==> t.procs[i].pid < t.nextpid)
    && (forall i, j :: 0 <= i < j < |t.procs| && t.procs[i].state != UNUSED && t.procs[j].state != UNUSED ==>
          t.procs[i].pid != t.procs[j].pid)
    && (forall k :: 0 <= k < |t.reaped| ==> t.reaped[k] < t.nextpid)
    && (forall k, l :: 0 <= k < l < |t.reaped| ==> t.reaped[k] != t.reaped[l])
    && (forall k, i :: 0 <= k < |t.reaped| && 0 <= i < |t.procs| && t.procs[i].state != UNUSED ==>
          t.procs[i].pid != t.reaped[k])
  }

  ghost predicate HasChild(procs: seq<Proc>, i: nat) {
    exists j :: 0 <= j < |procs| && procs[j].parent == i
  }

  /** A process asleep in wait sleeps on itself, has a child and no zombie child, and is not killed. */
  ghost predicate Waiters(t: Table) {
    && (forall i :: 0 <= i < |t.procs| && t.procs[i].state == SLEEPING ==>
          || (t.procs[i].task == Waiting && t.procs[i].chan == OfProc(i))
          || (t.procs[i].task == Asleep && t.procs[i].chan.Other?))
    && (forall i, j :: 0 <= i < |t.procs| && 0 <= j < |t.procs| && t.procs[i].state == SLEEPING && t.procs[i].task == Waiting ==>
          !ZombieChild(t.procs[j], i))
    && (forall i :: 0 <= i < |t.procs| && t.procs[i].state == SLEEPING && t.procs[i].task == Waiting ==>
          HasChild(t.procs, i) && !t.procs[i].killed)
  }

  ghost predicate Inv(t: Table) {
    Parents(t) && Embryos(t) && Pids(t) && Waiters(t)
  }

  // ----- every step keeps them

  /** exit, slot by slot. */
  lemma ExitedAt(procs: seq<Proc>, p: nat, init: nat, j: nat)
    requires p < |procs| && j < |procs|
    ensures ExitedSlot(procs, p, init, Exited(procs, p, init), j)
  {
    var a := Wakeup(procs, ChanOf(procs[p].parent));
    forall k | 0 <= k < |procs| ensures procs[k].parent == p && procs[k].state == ZOMBIE <==> a[k].parent == p && a[k].state == ZOMBIE {
    }
  }

  ghost predicate ExitedSlot(procs: seq<Proc>, p: nat, init: nat, r: seq<Proc>, j: nat)
    requires p < |procs| && j < |procs| == |r|
  {
    var x, y := procs[j], r[j];
      && y.pid == x.pid && y.chan == x.chan && y.killed == x.killed
      && y.parent == (if x.parent == p then init else x.parent)
      && (j == p ==> y.state == ZOMBIE && y.task == User)
      && (j != p ==> y.task == x.task && (y.state == x.state || (x.state == SLEEPING && y.state == RUNNABLE)))
      // the parent of the exiting process is awake, and init if it inherits a zombie
      && (j != p && y.state == SLEEPING ==> x.chan != ChanOf(procs[p].parent))
      && (j != p && y.state == SLEEPING && x.chan == OfProc(init) ==>
            forall k :: 0 <= k < |procs| && procs[k].parent == p ==> procs[k].state != ZOMBIE)
      // and nobody else
      && (j != p && y.state != x.state ==>
            || x.chan == ChanOf(procs[p].parent)
            || (x.chan == OfProc(init) && exists k :: 0 <= k < |procs| && procs[k].parent == p && procs[k].state == ZOMBIE))
  }

  /** Only scheduling changes: everyone keeps pid, parent and place, and who is alive stays alive. */
  ghost predicate Rescheduled(t: Table, t': Table) {
    && |t'.procs| == |t.procs| && t'.nextpid == t.nextpid && t'.init == t.init && t'.reaped == t.reaped
    && (forall i {:trigger t.procs[i]} {:trigger t'.procs[i]} :: 0 <= i < |t.procs| ==> SameBut(t.procs[i], t'.procs[i]))
  }

  predicate SameBut(x: Proc, y: Proc) {
    && y.pid == x.pid && y.parent == x.parent
    && (y.state == x.state || (Alive(x) && Alive(y)))
    && (x.task.Forking? || y.task.Forking? ==> y.task == x.task && y.state != SLEEPING)
  }

  lemma RescheduledKeeps(t: Table, t': Table)
    requires Parents(t) && Embryos(t) && Pids(t) && Rescheduled(t, t')
    ensures Parents(t') && Embryos(t') && Pids(t')
  {
    hide ParentAt, EmbryoAt;
    forall i | 0 <= i < |t.procs| ensures ParentAt(t', i) && EmbryoAt(t', i) {
      assert ParentAt(t, i) && EmbryoAt(t, i);
      RescheduledAt(t, t', i);
    }
  }

  lemma RescheduledAt(t: Table, t': Table, i: nat)
    requires i < |t.procs| && ParentAt(t, i) && EmbryoAt(t, i) && Rescheduled(t, t')
    ensures ParentAt(t', i) && EmbryoAt(t', i)
  {
  }

  predicate Scheduling(step: Step) {
    step.Sleep? || step.WakeOther? || step.Yield? || step.Schedule? || step.Kill?
  }

  lemma SchedulingSteps(t: Table, step: Step)
    requires Enabled(t, step) && Embryos(t) && Scheduling(step)
    ensures Rescheduled(t, Next(t, step))
  {
    hide Wakeup;
    var t' := Next(t, step);
    forall i | 0 <= i < |t.procs| ensures SameBut(t.procs[i], t'.procs[i]) {
      assert EmbryoAt(t, i);
    }
  }

  lemma SchedulingWaiters(t: Table, step: Step)
    requires Enabled(t, step) && Waiters(t) && Scheduling(step)
    ensures Waiters(Next(t, step))
  {
    var t' := Next(t, step);
    forall i | 0 <= i < |t.procs|
      ensures t'.procs[i].state == SLEEPING ==>
        || t'.procs[i] == t.procs[i]
        || (t'.procs[i].task == Asleep && t'.procs[i].chan.Other?)
      ensures t'.procs[i].state == ZOMBIE ==> t'.procs[i].state == t.procs[i].state
      ensures t'.procs[i].parent == t.procs[i].parent
    {
    }
  }

  /** The fork steps change the new slot and the forking process; nobody sleeps, dies or loses a child. */
  lemma ForkSleepers(t: Table, step: Step, i: nat)
    requires step.Alloc? || step.AllocFails? || step.Link? || step.ForkDone?
    requires Enabled(t, step) && i < |t.procs| && EmbryoAt(t, step.p)
    ensures var t' := Next(t, step);
      && |t'.procs| == |t.procs|
      && (t'.procs[i].state == SLEEPING || t'.procs[i].state == ZOMBIE ==> t'.procs[i] == t.procs[i])
      && (t.procs[i].parent != NONE ==> t'.procs[i].parent == t.procs[i].parent)
  {
  }

  lemma ForkWaiters(t: Table, step: Step)
    requires Enabled(t, step) && Waiters(t) && Embryos(t)
    requires step.Alloc? || step.AllocFails? || step.Link? || step.ForkDone?
    ensures Waiters(Next(t, step))
  {
    hide Next, EmbryoAt, Enabled;
    var t' := Next(t, step);
    assert EmbryoAt(t, step.p) by { StepInRange(t, step); }
    forall i | 0 <= i < |t.procs|
      ensures |t'.procs| == |t.procs|
      ensures t'.procs[i].state == SLEEPING || t'.procs[i].state == ZOMBIE ==> t'.procs[i] == t.procs[i]
      ensures t.procs[i].parent != NONE ==> t'.procs[i].parent == t.procs[i].parent
    {
      ForkSleepers(t, step, i);
    }
    StepInRange(t, step);
    assert |t'.procs| == |t.procs| by { ForkSleepers(t, step, step.p); }
    forall i | 0 <= i < |t.procs| && t'.procs[i].state == SLEEPING && t'.procs[i].task == Waiting ensures HasChild(t'.procs, i) {
      var j :| 0 <= j < |t.procs| && t.procs[j].parent == i;
      assert t'.procs[j].parent == i;
    }
  }

  lemma StepInRange(t: Table, step: Step)
    requires Enabled(t, step) && (step.Alloc? || step.AllocFails? || step.Link? || step.ForkDone?)
    ensures step.p < |t.procs|
  {
  }

  lemma KeepFork(t: Table, step: Step)
    requires Enabled(t, step) && Parents(t) && Embryos(t)
    requires step.Alloc? || step.AllocFails? || step.Link? || step.ForkDone?
    ensures Parents(Next(t, step)) && Embryos(Next(t, step))
  {
    hide ParentAt, EmbryoAt;
    var t', p := Next(t, step), step.p;
    assert ParentAt(t, p) && EmbryoAt(t, p);
    var np := First(t.procs, IsUnused, 0);
    assert np < |t.procs| ==> ParentAt(t, np);
    forall i | 0 <= i < |t.procs| ensures ParentAt(t', i) && EmbryoAt(t', i) {
      assert ParentAt(t, i) && EmbryoAt(t, i);
      ForkAt(t, step, i);
    }
    ForkDistinct(t, step);
    ForkInit(t, step);
  }

  lemma ForkInit(t: Table, step: Step)
    requires Enabled(t, step) && (step.Alloc? || step.AllocFails? || step.Link? || step.ForkDone?)
    requires t.init < |t.procs| && Alive(t.procs[t.init]) && t.procs[t.init].parent == NONE && EmbryoAt(t, step.p)
    ensures var t' := Next(t, step);
      && t'.init == t.init && |t'.procs| == |t.procs|
      && Alive(t'.procs[t.init]) && t'.procs[t.init].parent == NONE
  {
  }

  lemma ForkAt(t: Table, step: Step, i: nat)
    requires Enabled(t, step) && i < |t.procs| && (step.Alloc? || step.AllocFails? || step.Link? || step.ForkDone?)
    requires t.init < |t.procs| && Alive(t.procs[t.init]) && t.procs[t.init].parent == NONE
    requires ParentAt(t, step.p) && EmbryoAt(t, step.p) && ParentAt(t, i) && EmbryoAt(t, i)
    requires step.Alloc? && First(t.procs, IsUnused, 0) < |t.procs| ==> ParentAt(t, First(t.procs, IsUnused, 0))
    requires i != step.p && t.procs[i].task.Forking? && t.procs[step.p].task.Forking? ==>
      t.procs[i].task.np != t.procs[step.p].task.np
    ensures ParentAt(Next(t, step), i) && EmbryoAt(Next(t, step), i)
  {
    if step.Alloc? {
      AllocAt(t, step.p, i);
    }
  }

  lemma AllocAt(t: Table, p: nat, i: nat)
    requires Enabled(t, Alloc(p)) && i < |t.procs| && t.init < |t.procs|
    requires ParentAt(t, p) && EmbryoAt(t, p) && ParentAt(t, i) && EmbryoAt(t, i)
    requires First(t.procs, IsUnused, 0) < |t.procs| ==> ParentAt(t, First(t.procs, IsUnused, 0))
    ensures ParentAt(Next(t, Alloc(p)), i) && EmbryoAt(Next(t, Alloc(p)), i)
  {
  }

  lemma ForkDistinct(t: Table, step: Step)
    requires Enabled(t, step) && Embryos(t) && (step.Alloc? || step.AllocFails? || step.Link? || step.ForkDone?)
    ensures var t' := Next(t, step);
      forall p, q :: 0 <= p < q < |t'.procs| && t'.procs[p].task.Forking? && t'.procs[q].task.Forking? ==>
        t'.procs[p].task.np != t'.procs[q].task.np
  {
    assert EmbryoAt(t, step.p);
    assert forall q :: 0 <= q < |t.procs| && EmbryoAt(t, q) && t.procs[q].task.Forking? ==> t.procs[t.procs[q].task.np].state == EMBRYO;
  }

  lemma ForkPids(t: Table, step: Step)
    requires Enabled(t, step) && Pids(t) && Embryos(t) && (step.Alloc? || step.AllocFails? || step.Link? || step.ForkDone?)
    ensures Pids(Next(t, step))
  {
    hide ParentAt;
    assert EmbryoAt(t, step.p);
  }

  lemma KeepScan(t: Table, p: nat)
    requires Enabled(t, Wait(p)) && Inv(t)
    ensures Inv(Next(t, Wait(p)))
  {
    var z := First(t.procs, (x: Proc) => ZombieChild(x, p), 0);
    if z < |t.procs| {
      KeepReap(t, p, z);
    } else {
      ScanWithoutZombie(t, p);
    }
  }

  lemma ScanWithoutZombie(t: Table, p: nat)
    requires Enabled(t, Wait(p)) && Inv(t)
    requires forall j :: 0 <= j < |t.procs| ==> !ZombieChild(t.procs[j], p)
    ensures Inv(Next(t, Wait(p)))
  {
    hide Parents, Embryos, Pids, Waiters, Rescheduled, Next;
    ScanReschedules(t, p);
    RescheduledKeeps(t, Next(t, Wait(p)));
    ScanWaiters(t, p);
  }

  lemma ScanReschedules(t: Table, p: nat)
    requires Enabled(t, Wait(p)) && Embryos(t) && forall j :: 0 <= j < |t.procs| ==> !ZombieChild(t.procs[j], p)
    ensures Rescheduled(t, Next(t, Wait(p)))
  {
    var t' := Next(t, Wait(p));
    forall i | 0 <= i < |t.procs| ensures SameBut(t.procs[i], t'.procs[i]) {
      assert EmbryoAt(t, i);
    }
  }

  lemma ScanWaiters(t: Table, p: nat)
    requires Enabled(t, Wait(p)) && Waiters(t) && forall j :: 0 <= j < |t.procs| ==> !ZombieChild(t.procs[j], p)
    ensures Waiters(Next(t, Wait(p)))
  {
    var t' := Next(t, Wait(p));
    forall i | 0 <= i < |t.procs|
      ensures t'.procs[i].parent == t.procs[i].parent && (t'.procs[i].state == ZOMBIE <==> t.procs[i].state == ZOMBIE)
      ensures i != p ==> t'.procs[i] == t.procs[i]
    {
    }
    forall i | 0 <= i < |t.procs| && t'.procs[i].state == SLEEPING && t'.procs[i].task == Waiting ensures HasChild(t'.procs, i) {
      var j :| 0 <= j < |t.procs| && t.procs[j].parent == i;
      assert t'.procs[j].parent == i;
    }
  }

  lemma KeepReap(t: Table, p: nat, z: nat)
    requires Enabled(t, Wait(p)) && Inv(t) && z < |t.procs| && ZombieChild(t.procs[z], p)
    ensures Inv(Reaped(t, p, z))
  {
    ReapParents(t, p, z);
    ReapPids(t, p, z);
    ReapWaiters(t, p, z);
  }

  lemma ReapParents(t: Table, p: nat, z: nat)
    requires Enabled(t, Wait(p)) && Parents(t) && Embryos(t) && z < |t.procs| && ZombieChild(t.procs[z], p)
    ensures Parents(Reaped(t, p, z)) && Embryos(Reaped(t, p, z))
  {
    hide ParentAt, EmbryoAt;
    var t' := Reaped(t, p, z);
    forall i | 0 <= i < |t.procs| ensures ParentAt(t', i) && EmbryoAt(t', i) {
      assert ParentAt(t, i) && EmbryoAt(t, i);
      ReapAt(t, p, z, i);
    }
  }

  lemma ReapAt(t: Table, p: nat, z: nat, i: nat)
    requires Enabled(t, Wait(p)) && z < |t.procs| && ZombieChild(t.procs[z], p) && i < |t.procs|
    requires ParentAt(t, i) && EmbryoAt(t, i)
    ensures ParentAt(Reaped(t, p, z), i) && EmbryoAt(Reaped(t, p, z), i)
  {
  }

  lemma ReapPids(t: Table, p: nat, z: nat)
    requires Enabled(t, Wait(p)) && Pids(t) && z < |t.procs| && ZombieChild(t.procs[z], p)
    ensures Pids(Reaped(t, p, z))
  {
  }

  lemma ReapWaiters(t: Table, p: nat, z: nat)
    requires Enabled(t, Wait(p)) && Waiters(t) && z < |t.procs| && ZombieChild(t.procs[z], p)
    ensures Waiters(Reaped(t, p, z))
  {
    var t' := Reaped(t, p, z);
    forall i | 0 <= i < |t.procs| && t'.procs[i].state == SLEEPING && t'.procs[i].task == Waiting ensures HasChild(t'.procs, i) {
      assert t.procs[i].state == SLEEPING && i != p;
      var j :| 0 <= j < |t.procs| && t.procs[j].parent == i;
      assert t'.procs[j].parent == i;
    }
  }

  lemma KeepExit(t: Table, p: nat)
    requires Enabled(t, Exit(p)) && Inv(t)
    ensures Inv(Next(t, Exit(p)))
  {
    hide Exited, ExitedSlot;
    forall j | 0 <= j < |t.procs|
      ensures ExitedSlot(t.procs, p, t.init, Exited(t.procs, p, t.init), j)
    {
      ExitedAt(t.procs, p, t.init, j);
    }
    ExitParents(t, p, Next(t, Exit(p)));
    ExitPids(t, p, Next(t, Exit(p)));
    ExitWaiters(t, p, Next(t, Exit(p)));
  }

  /** `t'` is `t` after the exit of `p`. */
  ghost predicate AfterExit(t: Table, p: nat, t': Table) {
    && p < |t.procs| && p != t.init && t.procs[p].state == RUNNING && t.procs[p].task == User
    && |t'.procs| == |t.procs| && t'.nextpid == t.nextpid && t'.init == t.init && t'.reaped == t.reaped
    && (forall j {:trigger t.procs[j]} {:trigger t'.procs[j]} :: 0 <= j < |t.procs| ==> ExitedSlot(t.procs, p, t.init, t'.procs, j))
  }

  lemma ExitParents(t: Table, p: nat, t': Table)
    requires AfterExit(t, p, t') && Parents(t) && Embryos(t)
    ensures Parents(t') && Embryos(t')
  {
    hide ParentAt, EmbryoAt;
    assert ParentAt(t, p);
    forall i | 0 <= i < |t.procs| ensures ParentAt(t', i) && EmbryoAt(t', i) {
      assert ParentAt(t, i) && EmbryoAt(t, i);
      ExitAt(t, p, t', i);
    }
  }

  lemma ExitAt(t: Table, p: nat, t': Table, i: nat)
    requires AfterExit(t, p, t') && i < |t.procs|
    requires t.init < |t.procs| && Alive(t.procs[t.init]) && t.procs[t.init].parent == NONE
    requires ParentAt(t, p) && ParentAt(t, i) && EmbryoAt(t, i)
    ensures ParentAt(t', i) && EmbryoAt(t', i)
  {
  }

  lemma ExitPids(t: Table, p: nat, t': Table)
    requires AfterExit(t, p, t') && Pids(t)
    ensures Pids(t')
  {
  }

  lemma ExitWaiters(t: Table, p: nat, t': Table)
    requires AfterExit(t, p, t') && Waiters(t) && Parents(t)
    ensures Waiters(t')
  {
    hide ParentAt;
    forall i, j | 0 <= i < |t.procs| && 0 <= j < |t.procs| && t'.procs[i].state == SLEEPING && t'.procs[i].task == Waiting
      ensures !ZombieChild(t'.procs[j], i)
    {
      assert ExitedSlot(t.procs, p, t.init, t'.procs, i) && ExitedSlot(t.procs, p, t.init, t'.procs, j);
      assert t.procs[i].state == SLEEPING && t.procs[i].chan == OfProc(i) && !ZombieChild(t.procs[j], i);
      if j == p && t'.procs[p].parent == i {
        assert ParentAt(t, p);
        OwnParent(t, p);
      }
    }
  }

  lemma OwnParent(t: Table, p: nat)
    requires p < |t.procs| && ParentAt(t, p)
    ensures t.procs[p].parent != p
  {
  }

  // ----- whole runs

  lemma KeepInv(t: Table, step: Step)
    requires Enabled(t, step) && Inv(t)
    ensures Inv(Next(t, step))
  {
    hide Parents, Embryos, Pids, Waiters, Next, Enabled;
    if Scheduling(step) {
      SchedulingSteps(t, step);
      RescheduledKeeps(t, Next(t, step));
      SchedulingWaiters(t, step);
    } else if step.Exit? {
      KeepExit(t, step.p);
    } else if step.Wait? {
      KeepScan(t, step.p);
    } else {
      KeepFork(t, step);
      ForkPids(t, step);
      ForkWaiters(t, step);
    }
  }

  ghost predicate Run(t: Table, steps: seq<Step>, t': Table)
    decreases |steps|
  {
    if steps == [] then t' == t
    else Enabled(t, steps[0]) && Run(Next(t, steps[0]), steps[1..], t')
  }

  /** After userinit: init is runnable with pid 1, every other slot is unused. */
  ghost predicate Boot(t: Table) {
    && |t.procs| == NPROC && t.init == 0 && t.nextpid == 2 && t.reaped == []
    && t.procs[0] == Proc(RUNNABLE, 1, NONE, NoChan, false, User)
    && forall i :: 1 <= i < NPROC ==> t.procs[i] == Proc(UNUSED, 0, NONE, NoChan, false, User)
  }

  lemma BootInv(t: Table)
    requires Boot(t)
    ensures Inv(t)
  {
    forall i | 0 <= i < |t.procs| ensures ParentAt(t, i) && EmbryoAt(t, i) {
    }
  }

  lemma {:induction false} RunInv(t: Table, steps: seq<Step>, t': Table)
    requires Inv(t) && Run(t, steps, t')
    ensures Inv(t')
    decreases |steps|
  {
    hide Inv, Next, Enabled;
    if steps != [] {
      KeepInv(t, steps[0]);
      RunInv(Next(t, steps[0]), steps[1..], t');
    }
  }

  /**
    In every reachable table: each process in use other than init has a living parent once one
    is set, the pids in use are distinct, wait has returned no pid twice, and whoever sleeps in
    wait has a child and no zombie child, and is not killed.
    */
  lemma ProcessTree(t: Table, steps: seq<Step>, t': Table)
    requires Boot(t) && Run(t, steps, t')
    ensures forall i :: 0 <= i < |t'.procs| && t'.procs[i].parent != NONE ==>
      0 <= t'.procs[i].parent < |t'.procs| && Alive(t'.procs[t'.procs[i].parent])
    ensures forall i :: 0 <= i < |t'.procs| && (Alive(t'.procs[i]) || t'.procs[i].state == ZOMBIE) && i != t'.init ==>
      t'.procs[i].parent != NONE
    ensures forall i, j :: 0 <= i < j < |t'.procs| && t'.procs[i].state != UNUSED && t'.procs[j].state != UNUSED ==>
      t'.procs[i].pid != t'.procs[j].pid
    ensures forall k, l :: 0 <= k < l < |t'.reaped| ==> t'.reaped[k] != t'.reaped[l]
    ensures forall i, j :: 0 <= i < |t'.procs| && 0 <= j < |t'.procs| && t'.procs[j].parent == i && t'.procs[j].state == ZOMBIE ==>
      !(t'.procs[i].state == SLEEPING && t'.procs[i].chan == OfProc(i))
    ensures forall i :: 0 <= i < |t'.procs| && t'.procs[i].state == SLEEPING && t'.procs[i].chan == OfProc(i) ==>
      !t'.procs[i].killed && exists j :: 0 <= j < |t'.procs| && t'.procs[j].parent == i
  {
    BootInv(t);
    RunInv(t, steps, t');
    forall i | 0 <= i < |t'.procs|
      ensures t'.procs[i].parent != NONE ==>
        0 <= t'.procs[i].parent < |t'.procs| && Alive(t'.procs[t'.procs[i].parent])
      ensures (Alive(t'.procs[i]) || t'.procs[i].state == ZOMBIE) && i != t'.init ==> t'.procs[i].parent != NONE
    {
      assert ParentAt(t', i);
    }
    forall i, j | 0 <= i < |t'.procs| && 0 <= j < |t'.procs| && t'.procs[j].parent == i && t'.procs[j].state == ZOMBIE
      ensures !(t'.procs[i].state == SLEEPING && t'.procs[i].chan == OfProc(i))
    {
      assert ZombieChild(t'.procs[j], i);
    }
  }

  // ----- who wakes whom

  /** The step wakes the sleeper in slot `i`. */
  ghost predicate Wakes(t: Table, step: Step, i: nat)
    requires i < |t.procs|
  {
    match step
    case WakeOther(id) => t.procs[i].chan == Other(id)
    case Kill(pid) => t.procs[i].pid == pid && forall k :: 0 <= k < i ==> t.procs[k].pid != pid
    case Exit(p) =>
      && p < |t.procs| && t.procs[i].task == Waiting
      && (t.procs[p].parent == i || (i == t.init && exists k :: 0 <= k < |t.procs| && ZombieChild(t.procs[k], p)))
    case _ => false
  }

  /**
    A sleeper becomes runnable exactly when its channel is woken, kill finds it first, or, if it
    sleeps in wait, a child exits or init inherits a zombie.
    */
  lemma WakesExactly(t: Table, step: Step, i: nat)
    requires Inv(t) && Enabled(t, step) && i < |t.procs| && t.procs[i].state == SLEEPING
    ensures |Next(t, step).procs| == |t.procs|
    ensures Next(t, step).procs[i].state == if Wakes(t, step, i) then RUNNABLE else SLEEPING
  {
    hide Parents, Embryos, Pids;
    if step.Exit? {
      ExitedAt(t.procs, step.p, t.init, i);
      ExitWakes(t, step.p, i);
    } else if step.Alloc? || step.AllocFails? || step.Link? || step.ForkDone? {
      ForkSleeper(t, step, i);
    }
  }

  lemma ExitWakes(t: Table, p: nat, i: nat)
    requires Inv(t) && Enabled(t, Exit(p)) && i < |t.procs| && t.procs[i].state == SLEEPING
    requires ExitedSlot(t.procs, p, t.init, Exited(t.procs, p, t.init), i)
    ensures Exited(t.procs, p, t.init)[i].state == if Wakes(t, Exit(p), i) then RUNNABLE else SLEEPING
  {
    hide Exited, Parents, Embryos, Pids;
    assert ParentAt(t, p) by { InvParents(t); }
  }

  lemma InvParents(t: Table)
    requires Inv(t)
    ensures Parents(t)
  {
  }

  lemma ForkSleeper(t: Table, step: Step, i: nat)
    requires Inv(t) && Enabled(t, step) && i < |t.procs| && t.procs[i].state == SLEEPING
    requires step.Alloc? || step.AllocFails? || step.Link? || step.ForkDone?
    ensures |Next(t, step).procs| == |t.procs| && Next(t, step).procs[i].state == SLEEPING
  {
    assert EmbryoAt(t, step.p);
  }

  /**
    sleep and yield take the process off the processor, and it comes back as it was: from sleep
    once its channel has been woken and it is scheduled, from yield once it is scheduled.
    */
  lemma OffAndOn(t: Table, p: nat, id: int)
    requires Enabled(t, Sleep(p, id))
    ensures var a := Next(t, Sleep(p, id));
      && a.procs[p].state == SLEEPING && !Enabled(a, Schedule(p)) && Enabled(a, WakeOther(id))
      && var b := Next(a, WakeOther(id));
      && Enabled(b, Schedule(p)) && Next(b, Schedule(p)).procs[p] == t.procs[p].(chan := NoChan)
    ensures var a := Next(t, Yield(p));
      a.procs[p].state == RUNNABLE && Enabled(a, Schedule(p)) && Next(a, Schedule(p)).procs[p] == t.procs[p].(chan := NoChan)
  {
  }

  // ----- fork as a whole

  /** The three steps of a fork that gets its memory. */
  function ForkSteps(p: nat): (r: seq<Step>) { [Alloc(p), Link(p), ForkDone(p)] }

  /**
    fork by `p`, nothing else happening: the lowest unused slot becomes a runnable child of `p`
    with the next pid, and nothing else changes.
    */
  lemma ForkMakesChild(t: Table, p: nat, np: nat) returns (t': Table)
    requires Enabled(t, Alloc(p))
    requires np < |t.procs| && t.procs[np].state == UNUSED && forall i :: 0 <= i < np ==> t.procs[i].state != UNUSED
    ensures Run(t, ForkSteps(p), t')
    ensures t'.nextpid == t.nextpid + 1 && t'.init == t.init && t'.reaped == t.reaped && |t'.procs| == |t.procs|
    ensures forall i :: 0 <= i < |t.procs| && i != np ==> t'.procs[i] == t.procs[i]
    ensures t'.procs[np] == t.procs[np].(state := RUNNABLE, pid := t.nextpid, parent := p, task := User)
  {
    assert First(t.procs, IsUnused, 0) == np;
    var a := Next(t, Alloc(p));
    var b := Next(a, Link(p));
    t' := Next(b, ForkDone(p));
    assert ForkSteps(p)[1..] == [Link(p), ForkDone(p)];
    assert [Link(p), ForkDone(p)][1..] == [ForkDone(p)];
    assert Run(b, [ForkDone(p)], t');
    assert Run(a, [Link(p), ForkDone(p)], t');
  }

  /** fork fails for want of a slot just when all are in use, and then changes nothing. */
  lemma ForkWithoutSlot(t: Table, p: nat)
    requires Enabled(t, Alloc(p))
    ensures Next(t, Alloc(p)) == t <==> forall i :: 0 <= i < |t.procs| ==> t.procs[i].state != UNUSED
  {
    var np := First(t.procs, IsUnused, 0);
    if np < |t.procs| {
      assert Next(t, Alloc(p)).nextpid == t.nextpid + 1;
    }
  }

  // ----- the killed flag of a slot that is not in use

  ghost predicate CleanSlots(t: Table) {
    forall i :: 0 <= i < |t.procs| && t.procs[i].state == UNUSED ==> !t.procs[i].killed
  }

  /** kill hits a slot that is not in use, or fork gives up a slot that kill has hit. */
  predicate Stains(t: Table, step: Step)
    requires Enabled(t, step)
  {
    match step
    case Kill(pid) =>
      var k := First(t.procs, (x: Proc) => x.pid == pid, 0);
      k < |t.procs| && t.procs[k].state == UNUSED
    case AllocFails(p) => t.procs[t.procs[p].task.np].killed
    case _ => false
  }

  /** Those are the only two ways for an unused slot to carry the flag, and each always does it. */
  lemma StainIsExact(t: Table, step: Step)
    requires Enabled(t, step) && Inv(t) && CleanSlots(t)
    ensures CleanSlots(Next(t, step)) <==> !Stains(t, step)
  {
    hide Inv, Waiters, Pids, Parents;
    var t' := Next(t, step);
    if step.AllocFails? {
      assert EmbryoAt(t, step.p) by { assert Embryos(t) by { InvEmbryos(t); } }
      var np := t.procs[step.p].task.np;
      assert t'.procs[np].state == UNUSED && t'.procs[np].killed == t.procs[np].killed;
    } else if step.Exit? {
      forall i | 0 <= i < |t'.procs| && t'.procs[i].state == UNUSED ensures !t'.procs[i].killed {
        ExitedAt(t.procs, step.p, t.init, i);
      }
    } else if step.Kill? {
      var k := First(t.procs, (x: Proc) => x.pid == step.pid, 0);
      assert k < |t.procs| ==> t'.procs[k].killed;
    }
  }

  lemma InvEmbryos(t: Table)
    requires Inv(t)
    ensures Embryos(t)
  {
  }

  ghost predicate StainFree(t: Table, steps: seq<Step>)
    decreases |steps|
  {
    steps != [] && Enabled(t, steps[0]) ==> !Stains(t, steps[0]) && StainFree(Next(t, steps[0]), steps[1..])
  }

  /** Without them, no run gives fork a process that is already killed. */
  lemma {:induction false} BornAlive(t: Table, steps: seq<Step>, t': Table, p: nat)
    requires Inv(t) && CleanSlots(t) && Run(t, steps, t') && StainFree(t, steps)
    ensures CleanSlots(t')
    ensures var np := First(t'.procs, IsUnused, 0);
      Enabled(t', Alloc(p)) && np < |t'.procs| ==> !Next(t', Alloc(p)).procs[np].killed
    decreases |steps|
  {
    if steps != [] {
      KeepInv(t, steps[0]);
      StainIsExact(t, steps[0]);
      BornAlive(Next(t, steps[0]), steps[1..], t', p);
    }
  }

  /**
    A process can be born killed: kill does not skip unused slots, whose pid is 0, and
    allocproc does not clear the flag.
    */
  lemma BornKilled(t: Table) returns (t': Table)
    requires Boot(t)
    ensures Run(t, [Kill(0), Schedule(0), Alloc(0)], t')
    ensures t'.procs[1].state == EMBRYO && t'.procs[1].killed && t'.procs[1].pid == 2
  {
    var a := Next(t, Kill(0));
    var b := Next(a, Schedule(0));
    assert First(t.procs, (x: Proc) => x.pid == 0, 0) == 1;
    t' := Next(b, Alloc(0));
    assert First(b.procs, IsUnused, 0) == 1;
    assert [Kill(0), Schedule(0), Alloc(0)][1..] == [Schedule(0), Alloc(0)];
    assert [Schedule(0), Alloc(0)][1..] == [Alloc(0)];
    assert Run(b, [Alloc(0)], t');
    assert Run(a, [Schedule(0), Alloc(0)], t');
  }

  // ----- the scans on the array

  datatype WaitResult = Reaps(pid: int) | Fails | Sleeps

  class Slots {
    const procs: array<Proc>

    constructor (n: nat)
      ensures fresh(procs) && procs.Length == n
      ensures forall i :: 0 <= i < n ==> procs[i] == Proc(UNUSED, 0, NONE, NoChan, false, User)
    {
      procs := new Proc[n](_ => Proc(UNUSED, 0, NONE, NoChan, false, User));
    }

    /** The loop of wakeup1. */
    method Wakeup1(c: Chan)
      modifies procs
      ensures procs[..] == Wakeup(old(procs[..]), c)
      ensures forall i :: 0 <= i < procs.Length ==>
        && procs[i].(state := old(procs[i]).state) == old(procs[i])
        && procs[i].state == if old(procs[i]).state == SLEEPING && old(procs[i]).chan == c then RUNNABLE else old(procs[i]).state
    {
      var k := 0;
      while k < procs.Length
        invariant 0 <= k <= procs.Length
        invariant forall i :: 0 <= i < k ==> procs[i] == Awake(old(procs[i]), c)
        invariant forall i :: k <= i < procs.Length ==> procs[i] == old(procs[i])
      {
        if procs[k].state == SLEEPING && procs[k].chan == c {
          procs[k] := procs[k].(state := RUNNABLE);
        }
        k := k + 1;
      }
    }

    /** The scan of wait for process `p`: reap a zombie child, give up, or go to sleep. */
    method WaitScan(p: nat) returns (r: WaitResult)
      requires p < procs.Length && procs[p].state == RUNNING
      modifies procs
      ensures var t := Scanned(Table(old(procs[..]), 0, 0, []), p);
        procs[..] == t.procs && t.reaped == if r.Reaps? then [r.pid] else []
      ensures r.Sleeps? <==> procs[p].state == SLEEPING
      // which it is
      ensures r.Reaps? <==> exists z :: 0 <= z < procs.Length && old(procs[..])[z].parent == p && old(procs[..])[z].state == ZOMBIE
      ensures r.Fails? <==>
        && (forall z :: 0 <= z < procs.Length ==> !(old(procs[..])[z].parent == p && old(procs[..])[z].state == ZOMBIE))
        && ((forall j :: 0 <= j < procs.Length ==> old(procs[..])[j].parent != p) || old(procs[p]).killed)
      // what it leaves: the lowest zombie child's slot is given up, or the process sleeps on itself, or nothing happens
      ensures r.Reaps? ==> exists z :: 0 <= z < procs.Length && ReapedSlot(old(procs[..]), procs[..], p, z, r.pid)
      ensures !r.Reaps? ==> forall i :: 0 <= i < procs.Length && i != p ==> procs[i] == old(procs[i])
      ensures r.Fails? ==> procs[p] == old(procs[p]).(task := User)
      ensures r.Sleeps? ==> procs[p] == old(procs[p]).(state := SLEEPING, chan := OfProc(p), task := Waiting)
    {
      ghost var s0 := procs[..];
      var havekids, k := false, 0;
      while k < procs.Length
        invariant 0 <= k <= procs.Length && procs[..] == s0
        invariant forall i :: 0 <= i < k ==> !ZombieChild(s0[i], p)
        invariant havekids <==> exists i :: 0 <= i < k && s0[i].parent == p
      {
        if procs[k].parent == p {
          havekids := true;
          if procs[k].state == ZOMBIE {
            r := Reaps(procs[k].pid);
            procs[k] := Proc(UNUSED, 0, NONE, procs[k].chan, false, User);
            procs[p] := procs[p].(task := User);
            assert ReapedSlot(s0, procs[..], p, k, r.pid);
            return;
          }
        }
        k := k + 1;
      }
      if !havekids || procs[p].killed {
        procs[p] := procs[p].(task := User);
        return Fails;
      }
      procs[p] := procs[p].(state := SLEEPING, chan := OfProc(p), task := Waiting);
      return Sleeps;
    }

    /** kill. */
    method KillPid(pid: int) returns (found: bool)
      modifies procs
      ensures procs[..] == Killed(old(procs[..]), pid)
      ensures found <==> exists i :: 0 <= i < procs.Length && old(procs[..])[i].pid == pid
      ensures found ==> exists k :: 0 <= k < procs.Length && KilledSlot(old(procs[..]), procs[..], k, pid)
      ensures !found ==> procs[..] == old(procs[..])
    {
      ghost var s0 := procs[..];
      var k := 0;
      while k < procs.Length
        invariant 0 <= k <= procs.Length && procs[..] == s0
        invariant forall i :: 0 <= i < k ==> s0[i].pid != pid
      {
        if procs[k].pid == pid {
          procs[k] := procs[k].(killed := true);
          if procs[k].state == SLEEPING {
            procs[k] := procs[k].(state := RUNNABLE);
          }
          assert KilledSlot(s0, procs[..], k, pid);
          return true;
        }
        k := k + 1;
      }
      return false;
    }

    /** The part of exit that runs under ptable.lock. */
    method ExitProc(p: nat, init: nat)
      requires p < procs.Length && p != init
      modifies procs
      ensures procs[..] == Exited(old(procs[..]), p, init)
    {
      ghost var s0 := procs[..];
      Wakeup1(ChanOf(procs[p].parent));
      ghost var a := procs[..];
      var k := 0;
      ghost var woke := false;
      while k < procs.Length
        invariant 0 <= k <= procs.Length
        invariant forall i :: 0 <= i < procs.Length ==>
          procs[i] == Passed(a[i], i < k, woke, p, init)
        invariant woke <==> exists j :: 0 <= j < k && ZombieChild(a[j], p)
      {
        if procs[k].parent == p {
          procs[k] := procs[k].(parent := init);
          if procs[k].state == ZOMBIE {
            assert ZombieChild(a[k], p);
            Wakeup1(OfProc(init));
            woke := true;
          }
        }
        k := k + 1;
      }
      procs[p] := procs[p].(state := ZOMBIE, task := User);
      assert (exists j :: 0 <= j < |a| && a[j].parent == p && a[j].state == ZOMBIE) == woke;
    }
  }

  /** Slot `z` held the lowest zombie child of `p`, with that pid, and is unused now. */
  ghost predicate ReapedSlot(was: seq<Proc>, now: seq<Proc>, p: nat, z: nat, pid: int)
    requires z < |was| && p < |was| == |now|
  {
    && was[z].parent == p && was[z].state == ZOMBIE && was[z].pid == pid
    && (forall i :: 0 <= i < z ==> !(was[i].parent == p && was[i].state == ZOMBIE))
    && now[z].state == UNUSED && now[z].pid == 0 && now[z].parent == NONE && !now[z].killed
    && (forall i :: 0 <= i < |was| && i != z && i != p ==> now[i] == was[i])
    && (z != p ==> now[p] == was[p].(task := User))
  }

  /** Slot `k` is the lowest with that pid; it is marked, and runnable if it was asleep. */
  ghost predicate KilledSlot(was: seq<Proc>, now: seq<Proc>, k: nat, pid: int)
    requires k < |was| == |now|
  {
    && was[k].pid == pid && (forall i :: 0 <= i < k ==> was[i].pid != pid)
    && now[k].killed && now[k].(killed := was[k].killed, state := was[k].state) == was[k]
    && now[k].state == (if was[k].state == SLEEPING then RUNNABLE else was[k].state)
    && forall i :: 0 <= i < |was| && i != k ==> now[i] == was[i]
  }

  /** A slot during exit's loop: its children before the loop index have been adopted, sleepers on init woken or not. */
  function Passed(x: Proc, done: bool, woke: bool, p: nat, init: nat): Proc {
    var y := if done && x.parent == p then x.(parent := init) else x;
    if woke then Awake(y, OfProc(init)) else y
  }
}
