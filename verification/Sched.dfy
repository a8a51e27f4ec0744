/** The scheduler, sched and ptable.lock as an interleaved protocol: any number of CPUs, each running its
    scheduler or a process's kernel thread. ptable.lock is taken by one context and released by another
    across swtch. Every panic test on the way is a step's `Panics`. */
module Sched {
  datatype PState = UNUSED | SLEEPING | RUNNABLE | RUNNING | ZOMBIE

  /** Where a process's kernel thread is. */
  datatype Pc =
    | Fresh     // never run: its context is forkret's
    | Out       // running, without ptable.lock
    | Spin      // in acquire, after pushcli
    | In        // holding ptable.lock
    | Leaving   // has given itself a new state and is about to swtch
    | Off       // in sched, switched out

  /** `others` counts the other spinlocks it holds, `saved` is sched's local copy of intena, `mine` whether
      interrupts were on before its outermost pushcli, `cpu` where it last ran. */
  datatype Thread = Thread(st: PState, pc: Pc, others: int, saved: bool, mine: bool, cpu: int)

  /** Where a CPU's scheduler is. */
  datatype SchedPc =
    | Idle | SpinS | Scan    // outside the lock, acquiring it, looking through the table
    | Chosen | Ready         // c->proc is set; its state is RUNNING, about to swtch
    | Away                   // the process runs
    | Back                   // swtch has returned

  /** struct cpu, with the interrupt flag. */
  datatype Cpu = Cpu(proc: int, sched: SchedPc, ncli: int, intena: bool, ifl: bool)

  datatype State = State(locked: bool, lcpu: int, cpus: seq<Cpu>, procs: seq<Thread>)

  datatype Event =
    | Sti(c: int) | Try(c: int) | Win(c: int) | Release(c: int)
    | Choose(c: int, p: int) | MarkRunning(c: int) | SwitchTo(c: int) | Leave(c: int, st: PState) | SwitchBack(c: int)
      | Clear(c: int)
    | OtherAcquire(c: int) | OtherRelease(c: int) | SetIf(c: int, on: bool)
    | Wake(c: int, p: int) | Start(c: int, p: int) | Reap(c: int, p: int)
    | Interrupt(c: int, p: int)

  const NONE := -1

  function Push(k: Cpu): (k': Cpu)
  {
    k.(ifl := false, intena := if k.ncli == 0 then k.ifl else k.intena, ncli := k.ncli + 1)
  }

  function Pop(k: Cpu): (k': Cpu)
  {
    k.(ncli := k.ncli - 1, ifl := k.ncli == 1 && k.intena)
  }

  predicate PopPanics(k: Cpu)
  {
    k.ifl || k.ncli <= 0
  }

  /** A process's thread runs on c. */
  predicate Runs(s: State, c: int)
  {
    0 <= c < |s.cpus| && s.cpus[c].sched == Away && 0 <= s.cpus[c].proc < |s.procs|
  }

  predicate RunsAt(s: State, c: int, pc: Pc)
  {
    Runs(s, c) && s.procs[s.cpus[c].proc].pc == pc
  }

  predicate SchedAt(s: State, c: int, pc: SchedPc)
  {
    0 <= c < |s.cpus| && s.cpus[c].sched == pc
      && (pc == Chosen || pc == Ready || pc == Back ==> 0 <= s.cpus[c].proc < |s.procs|)
  }

  predicate IsProc(s: State, p: int)
  {
    0 <= p < |s.procs|
  }

  predicate Parked(st: PState)
  {
    st == RUNNABLE || st == SLEEPING || st == ZOMBIE
  }

  /** When a step can be taken; a process may do under the lock whatever it likes to others that are not running. */
  predicate Enabled(s: State, e: Event)
  {
    match e
    case Sti(c) => SchedAt(s, c, Idle)
    case Try(c) => SchedAt(s, c, Idle) || RunsAt(s, c, Out)
    case Win(c) => !s.locked && (SchedAt(s, c, SpinS) || RunsAt(s, c, Spin))
    case Release(c) => SchedAt(s, c, Scan) || RunsAt(s, c, In)
    case Choose(c, p) => SchedAt(s, c, Scan) && IsProc(s, p) && s.procs[p].st == RUNNABLE
    case MarkRunning(c) => SchedAt(s, c, Chosen)
    case SwitchTo(c) => SchedAt(s, c, Ready)
    case Leave(c, st) => RunsAt(s, c, In) && Parked(st)
    case SwitchBack(c) => RunsAt(s, c, Leaving)
    case Clear(c) => SchedAt(s, c, Back)
    case OtherAcquire(c) => RunsAt(s, c, Out) || RunsAt(s, c, In)
    case OtherRelease(c) => (RunsAt(s, c, Out) || RunsAt(s, c, In)) && s.procs[s.cpus[c].proc].others > 0
    case SetIf(c, _) => RunsAt(s, c, Out) && s.cpus[c].ncli == 0
    case Wake(c, p) => RunsAt(s, c, In) && IsProc(s, p) && s.procs[p].st == SLEEPING
    case Start(c, p) => RunsAt(s, c, In) && IsProc(s, p) && s.procs[p].st == UNUSED
    // a handler on a CPU between two rounds of its scheduler: acquire, wakeup1, release
    case Interrupt(c, p) => SchedAt(s, c, Idle) && s.cpus[c].ifl && !s.locked && IsProc(s, p)
      && s.procs[p].st == SLEEPING
    case Reap(c, p) => RunsAt(s, c, In) && IsProc(s, p) && s.procs[p].st == ZOMBIE
  }

  /** The tests that panic in acquire, release, popcli and sched. */
  predicate Panics(s: State, e: Event)
    requires Enabled(s, e)
  {
    match e
    case Try(c) => s.locked && s.lcpu == c
    case Release(c) => !(s.locked && s.lcpu == c) || PopPanics(s.cpus[c])
    case SwitchBack(c) =>
      !(s.locked && s.lcpu == c) || s.cpus[c].ncli != 1 || s.procs[s.cpus[c].proc].st == RUNNING || s.cpus[c].ifl
    case OtherRelease(c) => PopPanics(s.cpus[c])
    case _ => false
  }

  function SetCpu(s: State, c: int, k: Cpu): (s': State)
    requires 0 <= c < |s.cpus|
  {
    s.(cpus := s.cpus[c := k])
  }

  function SetProc(s: State, p: int, t: Thread): (s': State)
    requires 0 <= p < |s.procs|
  {
    s.(procs := s.procs[p := t])
  }

  function Next(s: State, e: Event): (s': State)
    requires Enabled(s, e) && !Panics(s, e)
  {
    var k := s.cpus[e.c];
    match e
    case Sti(c) => SetCpu(s, c, k.(ifl := true))
    case Try(c) =>
      if k.sched == Idle then SetCpu(s, c, Push(k).(sched := SpinS))
      else
        var t := s.procs[k.proc];
        SetProc(SetCpu(s, c, Push(k)), k.proc, t.(pc := Spin, mine := if k.ncli == 0 then k.ifl else t.mine))
    case Win(c) =>
      var s1 := s.(locked := true, lcpu := c);
      if k.sched == SpinS then SetCpu(s1, c, k.(sched := Scan)) else SetProc(s1, k.proc, s.procs[k.proc].(pc := In))
    case Release(c) =>
      var s1 := s.(locked := false, lcpu := NONE);
      if k.sched == Scan then SetCpu(s1, c, Pop(k).(sched := Idle))
      else SetProc(SetCpu(s1, c, Pop(k)), k.proc, s.procs[k.proc].(pc := Out))
    case Choose(c, p) => SetProc(SetCpu(s, c, k.(proc := p, sched := Chosen)), p, s.procs[p].(cpu := c))
    case MarkRunning(c) => SetProc(SetCpu(s, c, k.(sched := Ready)), k.proc, s.procs[k.proc].(st := RUNNING))
    case SwitchTo(c) =>
      var t := s.procs[k.proc];
      if t.pc == Fresh then SetProc(SetCpu(s, c, k.(sched := Away)), k.proc, t.(pc := In, mine := k.intena))
      else SetProc(SetCpu(s, c, k.(sched := Away, intena := t.saved)), k.proc, t.(pc := In))
    case Leave(c, st) => SetProc(s, k.proc, s.procs[k.proc].(st := st, pc := Leaving))
    case SwitchBack(c) => SetProc(SetCpu(s, c, k.(sched := Back)), k.proc,
                                  s.procs[k.proc].(pc := Off, saved := k.intena))
    case Clear(c) => SetCpu(s, c, k.(proc := NONE, sched := Scan))
    case OtherAcquire(c) =>
      var t := s.procs[k.proc];
      SetProc(SetCpu(s, c, Push(k)), k.proc, t.(others := t.others + 1, mine := if k.ncli == 0 then k.ifl else t.mine))
    case OtherRelease(c) => SetProc(SetCpu(s, c, Pop(k)), k.proc,
                                    s.procs[k.proc].(others := s.procs[k.proc].others - 1))
    case SetIf(c, on) => SetCpu(s, c, k.(ifl := on))
    case Wake(c, p) => SetProc(s, p, s.procs[p].(st := RUNNABLE))
    case Start(c, p) => SetProc(s, p, s.procs[p].(st := RUNNABLE, pc := Fresh, others := 0))
    case Reap(c, p) => SetProc(s, p, s.procs[p].(st := UNUSED))
    case Interrupt(c, p) => SetProc(s, p, s.procs[p].(st := RUNNABLE))
  }

  /** No CPU has started scheduling; some processes are ready to run for the first time. */
  ghost predicate Init(s: State)
  {
    && !s.locked
    && (forall c :: 0 <= c < |s.cpus| ==> s.cpus[c].proc == NONE && s.cpus[c].sched == Idle && s.cpus[c].ncli == 0)
    && (forall p :: 0 <= p < |s.procs| ==>
        s.procs[p].pc == Fresh && s.procs[p].others == 0 && (s.procs[p].st == UNUSED || s.procs[p].st == RUNNABLE))
  }

  ghost predicate Step(s: State, s': State)
  {
    exists e :: Enabled(s, e) && !Panics(s, e) && s' == Next(s, e)
  }

  ghost predicate IsRun(run: seq<State>)
  {
    && |run| > 0 && Init(run[0])
    && forall i {:trigger Moves(run, i)} :: 0 <= i < |run| - 1 ==> Moves(run, i)
  }

  ghost predicate Moves(run: seq<State>, i: int)
    requires 0 <= i < |run| - 1
  {
    Step(run[i], run[i + 1])
  }

  // The invariant.

  /** The context running on c holds ptable.lock. */
  predicate Holds(s: State, c: int)
    requires 0 <= c < |s.cpus|
  {
    var k := s.cpus[c];
    || k.sched == Scan || k.sched == Chosen || k.sched == Ready || k.sched == Back
    || (Runs(s, c) && (s.procs[k.proc].pc == In || s.procs[k.proc].pc == Leaving))
  }

  ghost predicate LockRight(s: State)
  {
    && (forall c {:trigger Holds(s, c)} :: 0 <= c < |s.cpus| && Holds(s, c) ==> s.locked && s.lcpu == c)
    && (s.locked ==> 0 <= s.lcpu < |s.cpus| && Holds(s, s.lcpu))
  }

  predicate OffCpu(pc: Pc)
  {
    pc == Off || pc == Fresh
  }

  /** The running thread t agrees with its CPU k: pushcli count, and the interrupt state it will go back to. */
  predicate ThreadRight(k: Cpu, t: Thread)
  {
    && (if t.pc == Leaving then Parked(t.st) else t.st == RUNNING)
    && !OffCpu(t.pc) && t.others >= 0 && k.ncli == t.others + (if t.pc == Out then 0 else 1)
    && (k.ncli > 0 ==> !k.ifl && k.intena == t.mine)
  }

  predicate CpuRight(s: State, c: int)
    requires 0 <= c < |s.cpus|
  {
    var k := s.cpus[c];
    if k.sched == Idle then k.proc == NONE && k.ncli == 0
    else if k.sched == SpinS || k.sched == Scan then k.proc == NONE && k.ncli == 1 && !k.ifl
    else
      && IsProc(s, k.proc) && s.procs[k.proc].cpu == c
      && var t := s.procs[k.proc];
         match k.sched
         case Chosen => t.st == RUNNABLE && OffCpu(t.pc) && k.ncli == 1 && !k.ifl
         case Ready => t.st == RUNNING && OffCpu(t.pc) && k.ncli == 1 && !k.ifl
         case Back => Parked(t.st) && t.pc == Off && k.ncli == 1 && !k.ifl
         case _ => ThreadRight(k, t)
  }

  predicate ProcRight(s: State, p: int)
    requires 0 <= p < |s.procs|
  {
    var t := s.procs[p];
    && (t.st == RUNNING || !OffCpu(t.pc) ==>
      && 0 <= t.cpu < |s.cpus| && s.cpus[t.cpu].proc == p
      && (s.cpus[t.cpu].sched == Away || (OffCpu(t.pc) && s.cpus[t.cpu].sched == Ready)))
    && (OffCpu(t.pc) ==> t.others == 0)
    && (t.pc == Off ==> t.saved == t.mine)
    && (t.st == UNUSED ==> OffCpu(t.pc))
  }

  ghost predicate Inv(s: State)
  {
    && LockRight(s)
    && (forall c {:trigger CpuRight(s, c)} :: 0 <= c < |s.cpus| ==> CpuRight(s, c))
    && (forall p {:trigger ProcRight(s, p)} :: 0 <= p < |s.procs| ==> ProcRight(s, p))
  }

  lemma InvInit(s: State)
    requires Init(s)
    ensures Inv(s)
  {
  }

  /** The lock after a step on c: as before, taken by c, or released by c. */
  ghost predicate LockMoves(s: State, s': State, c: int)
    requires 0 <= c < |s.cpus| && |s'.cpus| == |s.cpus|
  {
    || (s'.locked == s.locked && s'.lcpu == s.lcpu && Holds(s', c) == Holds(s, c))
    || (!s.locked && s'.locked && s'.lcpu == c && Holds(s', c))
    || (Holds(s, c) && !Holds(s', c) && !s'.locked)
  }

  /** A step on CPU c that touches process p, which no other CPU has, keeps the invariant if c and p end up right. */
  lemma Local(s: State, s': State, c: int, k': Cpu, p: int, t': Thread)
    requires Inv(s) && 0 <= c < |s.cpus| && 0 <= p < |s.procs| && s'.cpus == s.cpus[c := k']
    requires s'.procs == s.procs[p := t']
    requires forall b :: 0 <= b < |s.cpus| && b != c ==> s.cpus[b].proc != p
    requires k' == s.cpus[c] || s.cpus[c].proc == p || s.cpus[c].proc == NONE
    requires CpuRight(s', c) && ProcRight(s', p) && LockMoves(s, s', c)
    ensures Inv(s')
  {
    forall b | 0 <= b < |s.cpus|
      ensures CpuRight(s', b) && (b != c ==> Holds(s', b) == Holds(s, b))
    {
      assert CpuRight(s, b);
    }
    forall q | 0 <= q < |s.procs|
      ensures ProcRight(s', q)
    {
      assert ProcRight(s, q);
    }
  }

  /** The same for a step of c's scheduler that touches no process. */
  lemma LocalCpu(s: State, s': State, c: int, k': Cpu)
    requires Inv(s) && 0 <= c < |s.cpus| && s'.cpus == s.cpus[c := k'] && s'.procs == s.procs
    requires s.cpus[c].proc == NONE && k'.proc == NONE && CpuRight(s', c) && LockMoves(s, s', c)
    ensures Inv(s')
  {
    forall b | 0 <= b < |s.cpus|
      ensures CpuRight(s', b) && (b != c ==> Holds(s', b) == Holds(s, b))
    {
      assert CpuRight(s, b);
    }
    forall q | 0 <= q < |s.procs|
      ensures ProcRight(s', q)
    {
      assert ProcRight(s, q);
    }
  }

  /** A process that is not RUNNING is on no CPU but, perhaps, the one that holds the lock. */
  lemma NotElsewhere(s: State, c: int, p: int)
    requires Inv(s) && 0 <= c < |s.cpus| && (Holds(s, c) || !s.locked) && IsProc(s, p) && s.procs[p].st != RUNNING
    ensures forall b :: 0 <= b < |s.cpus| && b != c ==> s.cpus[b].proc != p
  {
    forall b | 0 <= b < |s.cpus| && b != c
      ensures s.cpus[b].proc != p
    {
      assert CpuRight(s, b) && !Holds(s, b);
    }
  }

  /** A CPU's process is on no other. */
  lemma OwnProcess(s: State, c: int)
    requires Inv(s) && 0 <= c < |s.cpus| && s.cpus[c].proc != NONE
    ensures IsProc(s, s.cpus[c].proc) && forall b :: 0 <= b < |s.cpus| && b != c ==> s.cpus[b].proc != s.cpus[c].proc
  {
    forall b | 0 <= b < |s.cpus| && s.cpus[b].proc != NONE
      ensures IsProc(s, s.cpus[b].proc) && s.procs[s.cpus[b].proc].cpu == b
    {
      assert CpuRight(s, b);
    }
  }

  predicate OwnStep(e: Event)
  {
    !e.Choose? && !e.Wake? && !e.Start? && !e.Reap? && !e.Interrupt?
  }

  /** Steps of a CPU's scheduler while it has no process. */
  lemma InvIdle(s: State, e: Event, s': State)
    requires Inv(s) && Enabled(s, e) && !Panics(s, e) && s' == Next(s, e) && OwnStep(e) && s.cpus[e.c].proc == NONE
    ensures Inv(s')
  {
    assert CpuRight(s, e.c);
    LocalCpu(s, s', e.c, s'.cpus[e.c]);
  }

  /** Steps of a CPU with a process: its scheduler's on the way there and back, and the process's own. */
  lemma InvOwn(s: State, e: Event, s': State)
    requires Inv(s) && Enabled(s, e) && !Panics(s, e) && s' == Next(s, e) && OwnStep(e) && s.cpus[e.c].proc != NONE
    ensures Inv(s')
  {
    assert CpuRight(s, e.c);
    OwnProcess(s, e.c);
    var p := s.cpus[e.c].proc;
    assert ProcRight(s, p);
    Local(s, s', e.c, s'.cpus[e.c], p, s'.procs[p]);
  }

  /** Steps on a process that does not run. */
  lemma InvOther(s: State, e: Event, s': State)
    requires Inv(s) && Enabled(s, e) && !Panics(s, e) && s' == Next(s, e) && !OwnStep(e)
    ensures Inv(s')
  {
    assert CpuRight(s, e.c) && ProcRight(s, e.p);
    NotElsewhere(s, e.c, e.p);
    Local(s, s', e.c, s'.cpus[e.c], e.p, s'.procs[e.p]);
  }

  lemma InvStep(s: State, e: Event, s': State)
    requires Inv(s) && Enabled(s, e) && !Panics(s, e) && s' == Next(s, e)
    ensures Inv(s')
  {
    if !OwnStep(e) {
      InvOther(s, e, s');
    } else if s.cpus[e.c].proc == NONE {
      InvIdle(s, e, s');
    } else {
      InvOwn(s, e, s');
    }
  }

  lemma {:induction false} InvRun(run: seq<State>, k: int)
    requires IsRun(run) && 0 <= k < |run|
    ensures Inv(run[k])
    decreases k
  {
    if k == 0 {
      InvInit(run[0]);
    } else {
      InvRun(run, k - 1);
      assert Moves(run, k - 1);
      var e :| Enabled(run[k - 1], e) && !Panics(run[k - 1], e) && run[k] == Next(run[k - 1], e);
      InvStep(run[k - 1], e, run[k]);
    }
  }

  // What every run keeps.

  /** With ptable.lock free, the RUNNING processes and the CPUs with a process are in bijection. */
  lemma RunningMatchesCpus(run: seq<State>, k: int)
    requires IsRun(run) && 0 <= k < |run| && !run[k].locked
    ensures forall p :: 0 <= p < |run[k].procs| ==>
      (run[k].procs[p].st == RUNNING <==> exists c :: 0 <= c < |run[k].cpus| && run[k].cpus[c].proc == p)
    ensures forall b, c :: 0 <= b < c < |run[k].cpus| && run[k].cpus[b].proc == run[k].cpus[c].proc ==>
      run[k].cpus[c].proc == NONE
    ensures forall c :: 0 <= c < |run[k].cpus| && run[k].cpus[c].proc != NONE ==> IsProc(run[k], run[k].cpus[c].proc)
  {
    InvRun(run, k);
    var s := run[k];
    forall c | 0 <= c < |s.cpus|
      ensures s.cpus[c].proc != NONE ==>
        IsProc(s, s.cpus[c].proc) && s.procs[s.cpus[c].proc].cpu == c && s.procs[s.cpus[c].proc].st == RUNNING
    {
      assert CpuRight(s, c) && !Holds(s, c);
    }
    forall p | 0 <= p < |s.procs| && s.procs[p].st == RUNNING
      ensures exists c :: 0 <= c < |s.cpus| && s.cpus[c].proc == p
    {
      assert ProcRight(s, p);
    }
  }

  /** Whoever holds the lock, no process's thread runs on two CPUs. */
  lemma NeverOnTwoCpus(run: seq<State>, k: int, b: int, c: int)
    requires IsRun(run) && 0 <= k < |run| && Runs(run[k], b) && Runs(run[k], c)
    requires run[k].cpus[b].proc == run[k].cpus[c].proc
    ensures b == c
  {
    InvRun(run, k);
    OwnProcess(run[k], b);
  }

  /** The lock is always released, and sched always entered, on the CPU that acquired it, with interrupts off
      and the pushcli count right: the one test that can fail is a process in sched holding another lock. */
  lemma PanicsExactly(run: seq<State>, k: int, e: Event)
    requires IsRun(run) && 0 <= k < |run| && Enabled(run[k], e)
    ensures Panics(run[k], e) <==> e.SwitchBack? && run[k].procs[run[k].cpus[e.c].proc].others > 0
    ensures e.Release? ==> run[k].locked && run[k].lcpu == e.c
  {
    InvRun(run, k);
    assert CpuRight(run[k], e.c);
    assert Holds(run[k], e.c) ==> run[k].lcpu == e.c;
  }

  /** wait never frees the kernel stack of a process still running on it. */
  lemma ReapedAreOff(run: seq<State>, k: int, c: int, p: int)
    requires IsRun(run) && 0 <= k < |run| && Enabled(run[k], Reap(c, p))
    ensures OffCpu(run[k].procs[p].pc) && forall b :: 0 <= b < |run[k].cpus| ==> run[k].cpus[b].proc != p
  {
    InvRun(run, k);
    var s := run[k];
    NotElsewhere(s, c, p);
    assert CpuRight(s, c) && ProcRight(s, p);
  }

  /** p runs without any spinlock. */
  predicate Bare(s: State, p: int)
  {
    IsProc(s, p) && s.procs[p].pc == Out && s.procs[p].others == 0
  }

  /** The interrupt flag where p is. */
  predicate IfOf(s: State, p: int)
    requires IsProc(s, p) && 0 <= s.procs[p].cpu < |s.cpus|
  {
    s.cpus[s.procs[p].cpu].ifl
  }

  predicate Living(s: State, p: int)
  {
    IsProc(s, p) && s.procs[p].st != ZOMBIE && s.procs[p].st != UNUSED
  }

  /** From its outermost pushcli at i to the matching popcli at j, through any number of trips through sched and
      across CPUs, p gets its own interrupt state back. */
  lemma InterruptsComeBack(run: seq<State>, i: int, j: int, p: int)
    requires IsRun(run) && 0 <= i && i + 1 < j < |run| && Bare(run[i], p) && Bare(run[j], p)
    requires forall m :: i < m < j ==> Living(run[m], p) && !Bare(run[m], p)
    ensures 0 <= run[i].procs[p].cpu < |run[i].cpus| && 0 <= run[j].procs[p].cpu < |run[j].cpus|
    ensures IfOf(run[j], p) == IfOf(run[i], p)
  {
    assert 0 <= run[i].procs[p].cpu < |run[i].cpus| by {
      InvRun(run, i);
      assert ProcRight(run[i], p);
    }
    MineKept(run, i, j - 1, p);
    assert Inv(run[j - 1]) by {
      InvRun(run, j - 1);
    }
    assert Moves(run, j - 1) && !Bare(run[j - 1], p);
    BareMoves(run[j - 1], run[j], p);
  }

  lemma BareMoves(s: State, s': State, p: int)
    requires Inv(s) && Step(s, s') && IsProc(s, p) && !Bare(s, p) && Bare(s', p)
    ensures 0 <= s'.procs[p].cpu < |s'.cpus| && IfOf(s', p) == s.procs[p].mine
  {
    var e :| Enabled(s, e) && !Panics(s, e) && s' == Next(s, e);
    BareStep(s, e, s', p);
  }

  lemma BareStep(s: State, e: Event, s': State, p: int)
    requires Inv(s) && Enabled(s, e) && !Panics(s, e) && s' == Next(s, e) && IsProc(s, p) && !Bare(s, p) && Bare(s', p)
    ensures 0 <= s'.procs[p].cpu < |s'.cpus| && IfOf(s', p) == s.procs[p].mine
  {
    assert CpuRight(s, e.c) && ProcRight(s, p);
  }

  lemma {:induction false} MineKept(run: seq<State>, i: int, m: int, p: int)
    requires IsRun(run) && 0 <= i < m < |run| && Bare(run[i], p) && 0 <= run[i].procs[p].cpu < |run[i].cpus|
    requires forall l :: i < l <= m ==> Living(run[l], p) && !Bare(run[l], p)
    ensures IsProc(run[m], p) && run[m].procs[p].mine == IfOf(run[i], p) && run[m].procs[p].pc != Fresh
    decreases m
  {
    var s := run[m - 1];
    assert Inv(s) by {
      InvRun(run, m - 1);
    }
    if m > i + 1 {
      MineKept(run, i, m - 1, p);
      assert Living(s, p) && !Bare(s, p);
    } else {
      BareLives(s, p);
    }
    assert Moves(run, m - 1);
    MineMoves(s, run[m], p);
  }

  lemma BareLives(s: State, p: int)
    requires Inv(s) && Bare(s, p)
    ensures Living(s, p)
  {
    assert ProcRight(s, p);
    assert CpuRight(s, s.procs[p].cpu);
  }

  lemma MineMoves(s: State, s': State, p: int)
    requires Inv(s) && Step(s, s') && Living(s, p) && Living(s', p) && s.procs[p].pc != Fresh && !Bare(s', p)
    ensures s'.procs[p].pc != Fresh
    ensures !Bare(s, p) ==> s'.procs[p].mine == s.procs[p].mine
    ensures Bare(s, p) && 0 <= s.procs[p].cpu < |s.cpus| ==> s'.procs[p].mine == IfOf(s, p)
  {
    var e :| Enabled(s, e) && !Panics(s, e) && s' == Next(s, e);
    MineStep(s, e, s', p);
  }

  lemma MineStep(s: State, e: Event, s': State, p: int)
    requires Inv(s) && Enabled(s, e) && !Panics(s, e) && s' == Next(s, e) && Living(s, p) && Living(s', p)
    requires s.procs[p].pc != Fresh && !Bare(s', p)
    ensures s'.procs[p].pc != Fresh
    ensures !Bare(s, p) ==> s'.procs[p].mine == s.procs[p].mine
    ensures Bare(s, p) && 0 <= s.procs[p].cpu < |s.cpus| ==> s'.procs[p].mine == IfOf(s, p)
  {
    assert CpuRight(s, e.c) && ProcRight(s, p);
  }
}
