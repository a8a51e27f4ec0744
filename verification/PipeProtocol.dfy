/** pipewrite, piperead and pipeclose over sleep, wakeup and kill, as an interleaved protocol: any number of
    processes, one step per byte moved, lock taken or released, or sleeper marked, woken or killed. `lk` is
    p->lock and `pt` ptable.lock. Only how many bytes the pipe holds matters here; module Pipe proves which. */
module PipeProtocol {
  const PIPESIZE := 512

  /** What a process does in the pipe; `left` is the bytes it has still to move. */
  datatype Task = Writing(left: nat) | Reading(left: nat) | Copying(left: nat) | ClosingW | ClosingR

  datatype Pc =
    | Idle
    | WantLk                       // acquiring p->lock
    | Work                         // holding it
    | WakeWant | WakeHave | WakeDone  // in wakeup: acquiring ptable.lock, about to scan, scanned
    | SlpWant | SlpBoth | SlpDropped | SlpMarked  // in sleep: acquiring ptable.lock, with both, p->lock dropped, marked
    | Off | Back                   // switched out; back, holding ptable.lock
    | Finish                       // about to release p->lock and return

  /** `thenSleep` is whether the process sleeps after its wakeup; `sleeping` whether it is SLEEPING, on
      &p->nwrite if it writes and &p->nread if it reads. */
  datatype P = P(pc: Pc, task: Task, thenSleep: bool, sleeping: bool, killed: bool)

  const FREE := -1
  const ENV := -2   // ptable.lock held by some other code

  /** `missed` records that a writer, killed, has left the pipe full without waking the readers, and that since
      then nobody has woken them and the pipe has not run empty. */
  datatype State = State(lk: int, pt: int, count: int, readopen: bool, writeopen: bool, procs: seq<P>, missed: bool)

  datatype Event =
    | Call(p: int, task: Task) | TakeLk(p: int) | Do(p: int) | TakePt(p: int) | Scan(p: int) | DropPt(p: int)
    | DropLk(p: int) | Mark(p: int) | Leave(p: int) | Resume(p: int) | Return(p: int) | Kill(p: int) | EnvTake | EnvDrop

  predicate At(s: State, p: int, pc: Pc)
  {
    0 <= p < |s.procs| && s.procs[p].pc == pc
  }

  predicate IsReader(t: Task)
  {
    t.Reading? || t.Copying?
  }

  /** No process has business of this kind in the pipe. */
  ghost predicate NoneAt(s: State, reader: bool, writer: bool, closeR: bool, closeW: bool)
  {
    forall p :: 0 <= p < |s.procs| && s.procs[p].pc != Idle ==>
      && (reader ==> !IsReader(s.procs[p].task)) && (writer ==> !s.procs[p].task.Writing?)
      && (closeR ==> !s.procs[p].task.ClosingR?) && (closeW ==> !s.procs[p].task.ClosingW?)
  }

  /** An end is used while some file refers to it and closed when the last reference goes. */
  ghost predicate MayCall(s: State, t: Task)
  {
    match t
    case Writing(_) => s.writeopen && NoneAt(s, false, false, false, true)
    case Reading(_) => s.readopen && NoneAt(s, false, false, true, false)
    case Copying(_) => false
    case ClosingW => s.writeopen && NoneAt(s, false, true, false, true)
    case ClosingR => s.readopen && NoneAt(s, true, false, true, false)
  }

  ghost predicate Enabled(s: State, e: Event)
  {
    match e
    case Call(p, t) => At(s, p, Idle) && MayCall(s, t)
    case TakeLk(p) => At(s, p, WantLk) && s.lk == FREE
    case Do(p) => At(s, p, Work)
    case TakePt(p) => (At(s, p, WakeWant) || At(s, p, SlpWant)) && s.pt == FREE
    case Scan(p) => At(s, p, WakeHave)
    case DropPt(p) => At(s, p, WakeDone) || At(s, p, Back)
    case DropLk(p) => At(s, p, SlpBoth)
    case Mark(p) => At(s, p, SlpDropped)
    case Leave(p) => At(s, p, SlpMarked)
    case Resume(p) => At(s, p, Off) && !s.procs[p].sleeping && s.pt == FREE
    case Return(p) => At(s, p, Finish)
    case Kill(p) => 0 <= p < |s.procs| && s.pt == FREE
    case EnvTake => s.pt == FREE
    case EnvDrop => s.pt == ENV
  }

  function Put(s: State, p: int, q: P): (s': State)
    requires 0 <= p < |s.procs|
  {
    s.(procs := s.procs[p := q])
  }

  /** One round of the loops of pipewrite and piperead, or pipeclose's write, by process q holding p->lock: the pipe,
      and the process, after it. */
  function Round(s: State, q: P): (r: (State, P))
    ensures r.0.lk == s.lk && r.0.pt == s.pt && r.0.procs == s.procs
    ensures r.1.task == q.task || SameKind(q.task, r.1.task)
    ensures r.1.sleeping == q.sleeping && r.1.killed == q.killed
  {
    match q.task
    case Writing(left) =>
      if left == 0 then (s, q.(pc := WakeWant, thenSleep := false))
      else if s.count < PIPESIZE then (s.(count := s.count + 1), q.(task := Writing(left - 1)))
      else if !s.readopen then (s, q.(pc := Finish))
      else if q.killed then (s.(missed := true), q.(pc := Finish))
      else (s, q.(pc := WakeWant, thenSleep := true))
    case Reading(left) =>
      if !(s.count == 0 && s.writeopen) then (s, q.(task := Copying(left)))
      else if q.killed then (s, q.(pc := Finish))
      else (s, q.(pc := SlpWant))
    case Copying(left) =>
      if left == 0 || s.count == 0 then (s, q.(pc := WakeWant, thenSleep := false))
      else (s.(count := s.count - 1, missed := s.missed && s.count > 1), q.(task := Copying(left - 1)))
    case ClosingW => (s.(writeopen := false), q.(pc := WakeWant, thenSleep := false))
    case ClosingR => (s.(readopen := false), q.(pc := WakeWant, thenSleep := false))
  }

  function Work1(s: State, p: int): (s': State)
    requires 0 <= p < |s.procs|
  {
    var r := Round(s, s.procs[p]);
    Put(r.0, p, r.1)
  }

  /** wakeup(&p->nread), as a writer or pipeclose of the write end does, or wakeup(&p->nwrite). */
  predicate Wakes(t: Task, u: Task)
  {
    if WakesReaders(t) then IsReader(u) else u.Writing?
  }

  predicate WakesReaders(t: Task)
  {
    t.Writing? || t.ClosingW?
  }

  function Woken(procs: seq<P>, t: Task): (procs': seq<P>)
  {
    seq(|procs|, i requires 0 <= i < |procs| => if Wakes(t, procs[i].task) then procs[i].(sleeping := false)
        else procs[i])
  }

  ghost function Next(s: State, e: Event): (s': State)
    requires Enabled(s, e)
  {
    match e
    case Call(p, t) => Put(s, p, P(WantLk, t, false, false, s.procs[p].killed))
    case TakeLk(p) => Put(s.(lk := p), p, s.procs[p].(pc := Work))
    case Do(p) => Work1(s, p)
    case TakePt(p) => Put(s.(pt := p), p, s.procs[p].(pc := if s.procs[p].pc == WakeWant then WakeHave else SlpBoth))
    case Scan(p) =>
      Put(s.(procs := Woken(s.procs, s.procs[p].task), missed := s.missed && !WakesReaders(s.procs[p].task)),
          p, s.procs[p].(pc := WakeDone))
    case DropPt(p) =>
      Put(s.(pt := FREE), p, s.procs[p].(pc := if s.procs[p].pc == Back then WantLk
                                         else if s.procs[p].thenSleep then SlpWant else Finish))
    case DropLk(p) => Put(s.(lk := FREE), p, s.procs[p].(pc := SlpDropped))
    case Mark(p) => Put(s, p, s.procs[p].(pc := SlpMarked, sleeping := true))
    case Leave(p) => Put(s.(pt := FREE), p, s.procs[p].(pc := Off))
    case Resume(p) => Put(s.(pt := p), p, s.procs[p].(pc := Back))
    case Return(p) => Put(s.(lk := FREE), p, s.procs[p].(pc := Idle))
    case Kill(p) => Put(s, p, s.procs[p].(killed := true, sleeping := false))
    case EnvTake => s.(pt := ENV)
    case EnvDrop => s.(pt := FREE)
  }

  ghost predicate Init(s: State)
  {
    && s.lk == s.pt == FREE && s.count == 0 && s.readopen && s.writeopen && !s.missed
    && forall p :: 0 <= p < |s.procs| ==> s.procs[p].pc == Idle && !s.procs[p].sleeping && !s.procs[p].killed
  }

  ghost predicate Moves(run: seq<State>, i: int)
    requires 0 <= i < |run| - 1
  {
    exists e :: Enabled(run[i], e) && run[i + 1] == Next(run[i], e)
  }

  ghost predicate IsRun(run: seq<State>)
  {
    |run| > 0 && Init(run[0]) && forall i {:trigger Moves(run, i)} :: 0 <= i < |run| - 1 ==> Moves(run, i)
  }

  // The invariant.

  predicate HasLk(pc: Pc)
  {
    pc == Work || pc == WakeWant || pc == WakeHave || pc == WakeDone || pc == SlpWant || pc == SlpBoth || pc == Finish
  }

  predicate HasPt(pc: Pc)
  {
    pc == WakeHave || pc == WakeDone || pc == SlpBoth || pc == SlpDropped || pc == SlpMarked || pc == Back
  }

  /** The holder of p->lock has yet to wake the sleepers that u is one of. */
  predicate Owed(s: State, u: Task)
  {
    && 0 <= s.lk < |s.procs| && Wakes(s.procs[s.lk].task, u) && !s.procs[s.lk].task.Reading?
    && (s.procs[s.lk].pc == Work || s.procs[s.lk].pc == WakeWant || s.procs[s.lk].pc == WakeHave)
  }

  /** Why a process with task t sleeps. */
  predicate Reason(s: State, t: Task)
  {
    if t.Writing? then s.count == PIPESIZE && s.readopen else t.Reading? && s.count == 0 && s.writeopen
  }

  /** Why it may still be asleep: somebody is about to wake it, or the reason stands, or a reader was missed. */
  predicate Excused(s: State, t: Task)
  {
    Owed(s, t) || Reason(s, t) || (t.Reading? && s.missed && s.writeopen)
  }

  predicate InSleep(pc: Pc)
  {
    pc == SlpDropped || pc == SlpMarked || pc == Off
  }

  predicate Right(s: State, p: int)
    requires 0 <= p < |s.procs|
  {
    var q := s.procs[p];
    && (s.lk == p <==> HasLk(q.pc)) && (s.pt == p <==> HasPt(q.pc))
    && (q.sleeping ==> q.pc == SlpMarked || q.pc == Off)
    && (q.pc == SlpWant || q.pc == SlpBoth ==> Reason(s, q.task))
    && (q.thenSleep && (q.pc == WakeWant || q.pc == WakeHave || q.pc == WakeDone) ==> Reason(s, q.task))
    && (InSleep(q.pc) || q.pc == Back ==> q.task.Writing? || q.task.Reading?)
    && (q.pc == SlpDropped || q.sleeping ==> Excused(s, q.task))
    && (q.pc != Idle && IsReader(q.task) ==> s.readopen) && (q.pc != Idle && q.task.Writing? ==> s.writeopen)
    && (q.task.ClosingW? && (q.pc == WantLk || q.pc == Work) ==> s.writeopen)
    && (q.task.ClosingR? && (q.pc == WantLk || q.pc == Work) ==> s.readopen)
  }

  /** Nobody uses an end while it is being closed. */
  predicate Exclusive(t: Task, u: Task)
  {
    && (t.ClosingR? ==> !IsReader(u) && !u.ClosingR?) && (t.ClosingW? ==> !u.Writing? && !u.ClosingW?)
  }

  predicate Apart(s: State, p: int, r: int)
    requires 0 <= p < |s.procs| && 0 <= r < |s.procs|
  {
    p != r && s.procs[p].pc != Idle && s.procs[r].pc != Idle ==> Exclusive(s.procs[p].task, s.procs[r].task)
  }

  /** A writer that has woken the readers on its way to sleep. */
  predicate PastWake(q: P)
  {
    q.task.Writing? && ((q.pc == WakeDone && q.thenSleep) || q.pc == SlpWant || q.pc == SlpBoth || Asleep(q))
  }

  /** No reader is asleep while a writer is, or is about to be. */
  predicate NotBoth(s: State, w: int, r: int)
    requires 0 <= w < |s.procs| && 0 <= r < |s.procs|
  {
    PastWake(s.procs[w]) && IsReader(s.procs[r].task) ==> !Asleep(s.procs[r])
  }

  predicate IsKilled(s: State, p: int)
  {
    0 <= p < |s.procs| && s.procs[p].killed
  }

  ghost predicate Locks(s: State)
  {
    && 0 <= s.count <= PIPESIZE && (s.lk == FREE || 0 <= s.lk < |s.procs|)
    && (s.pt == FREE || s.pt == ENV || 0 <= s.pt < |s.procs|)
    && (forall p {:trigger Right(s, p)} :: 0 <= p < |s.procs| ==> Right(s, p))
    && (forall p, r {:trigger Apart(s, p, r)} :: 0 <= p < |s.procs| && 0 <= r < |s.procs| ==> Apart(s, p, r))
  }

  ghost predicate Partners(s: State)
  {
    forall w, r {:trigger NotBoth(s, w, r)} :: 0 <= w < |s.procs| && 0 <= r < |s.procs| ==> NotBoth(s, w, r)
  }

  ghost predicate MissedRight(s: State)
  {
    s.missed ==> s.count > 0 && exists p :: IsKilled(s, p)
  }

  ghost predicate Inv(s: State)
  {
    Locks(s) && Partners(s) && MissedRight(s)
  }

  /** Sleeping, or past the point of no return. */
  predicate Asleep(q: P)
  {
    q.pc == SlpDropped || q.sleeping
  }

  /** A step by p leaves r right. */
  lemma OtherRight(s: State, s': State, p: int, r: int)
    requires 0 <= p < |s.procs| && 0 <= r < |s.procs| && r != p && |s'.procs| == |s.procs| && s'.procs[r] == s.procs[r]
    requires Right(s, r)
    requires (s'.lk == r <==> s.lk == r) && (s'.pt == r <==> s.pt == r)
    requires s.lk == r ==> s'.count == s.count && s'.readopen == s.readopen && s'.writeopen == s.writeopen
    requires Asleep(s.procs[r]) ==> Excused(s', s.procs[r].task)
    requires s.procs[r].pc != Idle && s'.readopen != s.readopen ==>
      s.readopen && !IsReader(s.procs[r].task) && !s.procs[r].task.ClosingR? && s.lk == p
    requires s.procs[r].pc != Idle && s'.writeopen != s.writeopen ==>
      s.writeopen && !s.procs[r].task.Writing? && !s.procs[r].task.ClosingW? && s.lk == p
    ensures Right(s', r)
  {
  }

  /** Steps that move no byte, close nothing and wake nobody. */
  predicate Quiet(e: Event)
  {
    !e.Call? && !e.Do? && !e.Scan? && !e.EnvTake? && !e.EnvDrop?
  }

  lemma QuietOwn(s: State, e: Event, s': State)
    requires Locks(s) && Enabled(s, e) && s' == Next(s, e) && Quiet(e)
    ensures Right(s', e.p)
  {
    if e.TakeLk? || e.TakePt? || e.DropPt? || e.Return? {
      LockOwn(s, e, s');
    } else {
      assert Right(s, e.p);
    }
  }

  lemma LockOwn(s: State, e: Event, s': State)
    requires Locks(s) && Enabled(s, e) && s' == Next(s, e) && (e.TakeLk? || e.TakePt? || e.DropPt? || e.Return?)
    ensures Right(s', e.p)
  {
    assert Right(s, e.p);
  }

  lemma QuietOther(s: State, e: Event, s': State, r: int)
    requires Locks(s) && Enabled(s, e) && s' == Next(s, e) && Quiet(e) && 0 <= r < |s.procs| && r != e.p
    ensures Right(s', r)
  {
    assert Right(s, e.p) && Right(s, r);
    OtherRight(s, s', e.p, r);
  }

  lemma LocksQuiet(s: State, e: Event, s': State)
    requires Locks(s) && Enabled(s, e) && s' == Next(s, e) && Quiet(e)
    ensures Locks(s')
  {
    forall r | 0 <= r < |s.procs|
      ensures Right(s', r)
    {
      if r == e.p {
        QuietOwn(s, e, s');
      } else {
        QuietOther(s, e, s', r);
      }
    }
    KeepsApart(s, s', e.p);
  }

  lemma KeepsApart(s: State, s': State, p: int)
    requires Locks(s) && 0 <= p < |s.procs| && |s'.procs| == |s.procs|
    requires forall r :: 0 <= r < |s.procs| && r != p ==>
      s'.procs[r].task == s.procs[r].task && s'.procs[r].pc == s.procs[r].pc
    requires s'.procs[p].pc == Idle
      || (s.procs[p].pc != Idle && (s'.procs[p].task == s.procs[p].task || SameKind(s.procs[p].task, s'.procs[p].task)))
    ensures forall q, r {:trigger Apart(s', q, r)} :: 0 <= q < |s.procs| && 0 <= r < |s.procs| ==> Apart(s', q, r)
  {
    forall q, r | 0 <= q < |s.procs| && 0 <= r < |s.procs|
      ensures Apart(s', q, r)
    {
      assert Apart(s, q, r);
    }
  }

  predicate SameKind(t: Task, u: Task)
  {
    (t.Writing? && u.Writing?) || (IsReader(t) && IsReader(u))
  }

  lemma LocksCall(s: State, e: Event, s': State)
    requires Locks(s) && Enabled(s, e) && s' == Next(s, e) && e.Call?
    ensures Locks(s')
  {
    var p := e.p;
    assert Right(s, p);
    forall r | 0 <= r < |s.procs|
      ensures Right(s', r)
    {
      assert Right(s, r);
      if r != p {
        OtherRight(s, s', p, r);
      }
    }
    forall q, r | 0 <= q < |s.procs| && 0 <= r < |s.procs|
      ensures Apart(s', q, r)
    {
      assert Apart(s, q, r);
    }
  }

  lemma WriteOwn(s: State, s': State, p: int)
    requires Locks(s) && At(s, p, Work) && s' == Work1(s, p) && s.procs[p].task.Writing?
    ensures Right(s', p)
  {
    assert Right(s, p);
  }

  lemma ReadOwn(s: State, s': State, p: int)
    requires Locks(s) && At(s, p, Work) && s' == Work1(s, p) && IsReader(s.procs[p].task)
    ensures Right(s', p)
  {
    assert Right(s, p);
  }

  lemma DoOwn(s: State, s': State, p: int)
    requires Locks(s) && At(s, p, Work) && s' == Work1(s, p)
    ensures Right(s', p)
  {
    if s.procs[p].task.Writing? {
      WriteOwn(s, s', p);
    } else if IsReader(s.procs[p].task) {
      ReadOwn(s, s', p);
    } else {
      assert Right(s, p);
    }
  }

  /** Those asleep stay excused: whoever works the pipe has yet to wake those it concerns. */
  lemma DoExcused(s: State, s': State, p: int, r: int)
    requires Locks(s) && At(s, p, Work) && s' == Work1(s, p) && 0 <= r < |s.procs| && r != p && Asleep(s.procs[r])
    ensures Excused(s', s.procs[r].task)
  {
    assert Right(s, p) && Right(s, r);
    if s.procs[p].task.Writing? {
      WriteExcused(s, s', p, r);
    } else if IsReader(s.procs[p].task) {
      ReadExcused(s, s', p, r);
    }
  }

  lemma WriteExcused(s: State, s': State, p: int, r: int)
    requires 0 <= s.count <= PIPESIZE && At(s, p, Work) && s' == Work1(s, p) && s.procs[p].task.Writing? && s.lk == p
    requires s.writeopen
    requires 0 <= r < |s.procs| && r != p && Asleep(s.procs[r]) && Right(s, r)
    ensures Excused(s', s.procs[r].task)
  {
  }

  lemma ReadExcused(s: State, s': State, p: int, r: int)
    requires 0 <= s.count <= PIPESIZE && At(s, p, Work) && s' == Work1(s, p) && IsReader(s.procs[p].task) && s.lk == p
    requires 0 <= r < |s.procs| && r != p && Asleep(s.procs[r]) && Right(s, r)
    ensures Excused(s', s.procs[r].task)
  {
  }

  lemma DoOther(s: State, s': State, p: int, r: int)
    requires Locks(s) && At(s, p, Work) && s' == Work1(s, p) && 0 <= r < |s.procs| && r != p
    ensures Right(s', r)
  {
    DoFrame(s, s', p);
    if Asleep(s.procs[r]) {
      DoExcused(s, s', p, r);
    }
    if s.procs[r].pc != Idle {
      DoEnds(s, s', p, r);
    }
    assert Right(s, p) && Right(s, r);
    OtherRight(s, s', p, r);
  }

  /** An end is closed only when nobody else uses it. */
  lemma DoEnds(s: State, s': State, p: int, r: int)
    requires Locks(s) && At(s, p, Work) && s' == Work1(s, p) && 0 <= r < |s.procs| && r != p && s.procs[r].pc != Idle
    ensures s'.readopen != s.readopen ==> s.readopen && !IsReader(s.procs[r].task) && !s.procs[r].task.ClosingR?
    ensures s'.writeopen != s.writeopen ==> s.writeopen && !s.procs[r].task.Writing? && !s.procs[r].task.ClosingW?
  {
    assert Right(s, p) && Apart(s, p, r);
  }

  lemma DoFrame(s: State, s': State, p: int)
    requires 0 <= s.count <= PIPESIZE && At(s, p, Work) && s' == Work1(s, p)
    ensures 0 <= s'.count <= PIPESIZE && s'.lk == s.lk && s'.pt == s.pt && s'.procs == s.procs[p := s'.procs[p]]
    ensures s'.procs[p].task == s.procs[p].task || SameKind(s.procs[p].task, s'.procs[p].task)
  {
  }

  lemma DoApart(s: State, s': State, p: int)
    requires Locks(s) && At(s, p, Work) && s' == Work1(s, p)
    ensures 0 <= s'.count <= PIPESIZE && s'.lk == s.lk && s'.pt == s.pt && |s'.procs| == |s.procs|
    ensures forall q, r {:trigger Apart(s', q, r)} :: 0 <= q < |s.procs| && 0 <= r < |s.procs| ==> Apart(s', q, r)
  {
    DoFrame(s, s', p);
    KeepsApart(s, s', p);
  }

  lemma LocksDo(s: State, p: int, s': State)
    requires Locks(s) && At(s, p, Work) && s' == Work1(s, p)
    ensures Locks(s')
  {
    DoApart(s, s', p);
    forall r | 0 <= r < |s.procs|
      ensures Right(s', r)
    {
      if r == p {
        DoOwn(s, s', p);
      } else {
        DoOther(s, s', p, r);
      }
    }
  }

  lemma LocksScan(s: State, e: Event, s': State)
    requires Locks(s) && Enabled(s, e) && s' == Next(s, e) && e.Scan?
    ensures Locks(s')
  {
    assert Right(s, e.p);
    forall r | 0 <= r < |s.procs|
      ensures Right(s', r)
    {
      assert Right(s, r);
    }
    KeepsApart(s, s', e.p);
  }

  lemma LocksEnv(s: State, s': State)
    requires Locks(s) && (s' == s.(pt := ENV) || s' == s.(pt := FREE)) && s.pt < 0
    ensures Locks(s')
  {
    forall r | 0 <= r < |s.procs|
      ensures Right(s', r)
    {
      assert Right(s, r);
    }
    forall q, r | 0 <= q < |s.procs| && 0 <= r < |s.procs|
      ensures Apart(s', q, r)
    {
      assert Apart(s, q, r);
    }
  }

  lemma LocksStep(s: State, e: Event, s': State)
    requires Locks(s) && Enabled(s, e) && s' == Next(s, e)
    ensures Locks(s')
  {
    match e
    case Call(_, _) => LocksCall(s, e, s');
    case Do(p) => LocksDo(s, p, s');
    case Scan(_) => LocksScan(s, e, s');
    case EnvTake => LocksEnv(s, s');
    case EnvDrop => LocksEnv(s, s');
    case _ => LocksQuiet(s, e, s');
  }

  /** Who falls asleep, and when: a reader with the pipe empty, a writer once it has woken the readers. */
  lemma NotBothStep(s: State, e: Event, s': State, w: int, r: int)
    requires Locks(s) && Enabled(s, e) && s' == Next(s, e) && 0 <= w < |s.procs| && 0 <= r < |s.procs|
    requires NotBoth(s, w, r)
    ensures |s'.procs| == |s.procs| && NotBoth(s', w, r)
  {
    assert Right(s, w) && Right(s, r);
    match e
    case Do(p) =>
      assert Right(s, p);
      DoSleepsNot(s, s', p);
    case Scan(p) =>
      assert Right(s, p);
      ScanNotBoth(s, e, s', w, r);
    case DropLk(_) => DropNotBoth(s, e, s', w, r);
    case EnvTake =>
    case EnvDrop =>
    case _ =>
      NobodySleeps(s, e, s', w);
      NobodySleeps(s, e, s', r);
  }

  lemma NobodySleeps(s: State, e: Event, s': State, x: int)
    requires !e.Do? && !e.Scan? && !e.DropLk? && !e.EnvTake? && !e.EnvDrop?
    requires Enabled(s, e) && s' == Next(s, e) && 0 <= x < |s.procs| && Right(s, x)
    ensures |s'.procs| == |s.procs| && (PastWake(s'.procs[x]) ==> PastWake(s.procs[x]))
    ensures Asleep(s'.procs[x]) ==> Asleep(s.procs[x]) && s'.procs[x].task == s.procs[x].task
  {
    if x != e.p {
      assert s'.procs[x] == s.procs[x];
    } else if e.Call? || e.Kill? || e.Return? || e.TakeLk? {
      AwakeStep(s, e, s');
    } else {
      SleepStep(s, e, s');
    }
  }

  lemma AwakeStep(s: State, e: Event, s': State)
    requires (e.Call? || e.Kill? || e.Return? || e.TakeLk?) && Enabled(s, e) && s' == Next(s, e) && Right(s, e.p)
    ensures PastWake(s'.procs[e.p]) ==> PastWake(s.procs[e.p])
    ensures Asleep(s'.procs[e.p]) ==> Asleep(s.procs[e.p]) && s'.procs[e.p].task == s.procs[e.p].task
  {
  }

  lemma SleepStep(s: State, e: Event, s': State)
    requires (e.TakePt? || e.DropPt? || e.Mark? || e.Leave? || e.Resume?) && Enabled(s, e) && s' == Next(s, e)
    requires Right(s, e.p)
    ensures PastWake(s'.procs[e.p]) ==> PastWake(s.procs[e.p])
    ensures Asleep(s'.procs[e.p]) ==> Asleep(s.procs[e.p]) && s'.procs[e.p].task == s.procs[e.p].task
  {
  }

  lemma DoSleepsNot(s: State, s': State, p: int)
    requires At(s, p, Work) && s' == Work1(s, p) && !s.procs[p].sleeping
    ensures !Asleep(s'.procs[p]) && !PastWake(s'.procs[p])
  {
  }

  lemma ScanNotBoth(s: State, e: Event, s': State, w: int, r: int)
    requires e.Scan? && Enabled(s, e) && s' == Next(s, e) && 0 <= w < |s.procs| && 0 <= r < |s.procs|
    requires NotBoth(s, w, r)
    requires Right(s, w) && Right(s, r) && s.pt == e.p
    ensures |s'.procs| == |s.procs| && NotBoth(s', w, r)
  {
  }

  lemma DropNotBoth(s: State, e: Event, s': State, w: int, r: int)
    requires e.DropLk? && Enabled(s, e) && s' == Next(s, e) && 0 <= w < |s.procs| && 0 <= r < |s.procs|
    requires NotBoth(s, w, r)
    requires Right(s, w) && Right(s, r)
    ensures |s'.procs| == |s.procs| && NotBoth(s', w, r)
  {
  }

  lemma DoMissed(s: State, s': State, p: int)
    requires 0 <= s.count <= PIPESIZE && At(s, p, Work) && s' == Work1(s, p) && (s.missed ==> s.count > 0)
    ensures s'.missed ==> s'.count > 0 && (s.missed || IsKilled(s, p))
    ensures |s'.procs| == |s.procs| && forall q :: IsKilled(s, q) ==> IsKilled(s', q)
  {
  }

  lemma MissedStep(s: State, e: Event, s': State)
    requires Locks(s) && MissedRight(s) && Enabled(s, e) && s' == Next(s, e)
    ensures MissedRight(s')
  {
    if e.Do? {
      DoMissed(s, s', e.p);
    } else {
      assert s'.missed ==> s.missed && s'.count == s.count;
      assert forall q :: IsKilled(s, q) ==> IsKilled(s', q);
    }
  }

  lemma InvStep(s: State, e: Event, s': State)
    requires Inv(s) && Enabled(s, e) && s' == Next(s, e)
    ensures Inv(s')
  {
    LocksStep(s, e, s');
    PartnersStep(s, e, s');
    MissedStep(s, e, s');
  }

  lemma PartnersStep(s: State, e: Event, s': State)
    requires Locks(s) && Partners(s) && Enabled(s, e) && s' == Next(s, e)
    ensures Partners(s')
  {
    forall w, r | 0 <= w < |s'.procs| && 0 <= r < |s'.procs|
      ensures NotBoth(s', w, r)
    {
      assert NotBoth(s, w, r);
      NotBothStep(s, e, s', w, r);
    }
  }

  lemma {:induction false} InvRun(run: seq<State>, k: int)
    requires IsRun(run) && 0 <= k < |run|
    ensures Inv(run[k])
    decreases k
  {
    if k > 0 {
      InvRun(run, k - 1);
      assert Moves(run, k - 1);
      var e :| Enabled(run[k - 1], e) && run[k] == Next(run[k - 1], e);
      InvStep(run[k - 1], e, run[k]);
    }
  }

  // What every run keeps.

  /** With p->lock free, a sleeping reader means an empty pipe a writer can still fill, except when a writer that was
      killed has filled the pipe and left without a wakeup; then, and only then, there are bytes to read. */
  lemma SleepingReader(run: seq<State>, k: int, p: int)
    requires IsRun(run) && 0 <= k < |run| && 0 <= p < |run[k].procs| && run[k].lk == FREE
    requires run[k].procs[p].sleeping && IsReader(run[k].procs[p].task)
    ensures run[k].writeopen && run[k].readopen
    ensures run[k].count == 0 <==> !run[k].missed
  {
    InvRun(run, k);
    assert Right(run[k], p);
  }

  /** Without kill, a sleeping reader always means an empty pipe. */
  lemma SleepingReaderUnkilled(run: seq<State>, k: int, p: int)
    requires IsRun(run) && 0 <= k < |run| && 0 <= p < |run[k].procs| && run[k].lk == FREE
    requires run[k].procs[p].sleeping && IsReader(run[k].procs[p].task)
    requires forall q :: !IsKilled(run[k], q)
    ensures run[k].count == 0 && run[k].writeopen
  {
    InvRun(run, k);
    SleepingReader(run, k, p);
  }

  /** With p->lock free, a sleeping writer means a full pipe a reader can still drain, whoever is killed. */
  lemma SleepingWriter(run: seq<State>, k: int, p: int)
    requires IsRun(run) && 0 <= k < |run| && 0 <= p < |run[k].procs| && run[k].lk == FREE
    requires run[k].procs[p].sleeping && run[k].procs[p].task.Writing?
    ensures run[k].count == PIPESIZE && run[k].readopen && run[k].writeopen
  {
    InvRun(run, k);
    assert Right(run[k], p);
  }

  /** Readers and writers never sleep at once, whoever holds p->lock and whoever is killed: the two ends cannot
      deadlock. */
  lemma NotBothAsleep(run: seq<State>, k: int, p: int, q: int)
    requires IsRun(run) && 0 <= k < |run| && 0 <= p < |run[k].procs| && 0 <= q < |run[k].procs|
    requires run[k].procs[p].sleeping && run[k].procs[q].sleeping
    ensures IsReader(run[k].procs[p].task) == IsReader(run[k].procs[q].task)
  {
    InvRun(run, k);
    assert Right(run[k], p) && Right(run[k], q);
    assert NotBoth(run[k], p, q) && NotBoth(run[k], q, p);
  }

  // The reader that is missed.

  lemma Extend(run: seq<State>, e: Event) returns (run': seq<State>)
    requires IsRun(run) && Enabled(run[|run| - 1], e)
    ensures IsRun(run') && |run'| == |run| + 1 && run'[|run|] == Next(run[|run| - 1], e)
  {
    run' := run + [Next(run[|run| - 1], e)];
    forall i | 0 <= i < |run'| - 1
      ensures Moves(run', i)
    {
      if i < |run| - 1 {
        assert Moves(run, i);
        var f :| Enabled(run[i], f) && run[i + 1] == Next(run[i], f);
        assert Enabled(run'[i], f) && run'[i + 1] == Next(run'[i], f);
      } else {
        assert Enabled(run'[i], e);
      }
    }
  }

  const SLEEPER := P(Off, Reading(1), false, true, false)

  const IDLER := P(Idle, ClosingW, false, false, false)

  /** Process 0 finds the pipe empty. */
  lemma ReaderEnters() returns (run: seq<State>)
    ensures IsRun(run)
    ensures run[|run| - 1] == State(0, FREE, 0, true, true, [SLEEPER.(pc := SlpWant, sleeping := false), IDLER], false)
  {
    run := [State(FREE, FREE, 0, true, true, [IDLER, IDLER], false)];
    run := Extend(run, Call(0, Reading(1)));
    run := Extend(run, TakeLk(0));
    run := Extend(run, Do(0));
  }

  /** It goes to sleep. */
  lemma ReaderSleeps() returns (run: seq<State>)
    ensures IsRun(run) && run[|run| - 1] == State(FREE, FREE, 0, true, true, [SLEEPER, IDLER], false)
  {
    run := ReaderEnters();
    run := Extend(run, TakePt(0));
    run := Extend(run, DropLk(0));
    run := Extend(run, Mark(0));
    run := Extend(run, Leave(0));
  }

  /** Process 1, holding p->lock, has stored n bytes of the 513 it writes. */
  function Stored(n: nat): (s: State)
    requires n <= PIPESIZE
  {
    State(1, FREE, n, true, true, [SLEEPER, P(Work, Writing(PIPESIZE + 1 - n), false, false, false)], false)
  }

  lemma {:induction false} WriterFills(run: seq<State>, n: nat) returns (run': seq<State>)
    requires n <= PIPESIZE && IsRun(run) && run[|run| - 1] == Stored(n)
    ensures IsRun(run') && run'[|run'| - 1] == Stored(PIPESIZE)
    decreases PIPESIZE - n
  {
    run' := run;
    if n < PIPESIZE {
      run' := Extend(run, Do(1));
      run' := WriterFills(run', n + 1);
    }
  }

  /** The exception does happen: a reader sleeps on an empty pipe, a writer of more than PIPESIZE bytes is killed
      while it fills it, and returns. The pipe is full, nobody is in it, and the reader sleeps on. */
  lemma ReaderMissed() returns (run: seq<State>)
    ensures IsRun(run) && |run[|run| - 1].procs| == 2
    ensures var s := run[|run| - 1];
            s.lk == FREE && s.count == PIPESIZE && s.procs[0].sleeping && IsReader(s.procs[0].task)
    ensures run[|run| - 1].procs[1].pc == Idle
  {
    run := ReaderSleeps();
    run := Extend(run, Call(1, Writing(PIPESIZE + 1)));
    run := Extend(run, TakeLk(1));
    run := WriterFills(run, 0);
    run := Extend(run, Kill(1));
    run := Extend(run, Do(1));
    run := Extend(run, Return(1));
  }
}
