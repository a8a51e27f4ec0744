/** sleeplock.c over sleep and wakeup, one lock and any number of processes, as an interleaved protocol. Each
    step is one acquisition, release or write; the lock's inner spinlock is `lk`, ptable.lock is `pt`. sleep
    gives up lk before it marks the process SLEEPING, so a wakeup may run in between. kill may wake a sleeper
    at any time, and code outside this protocol may hold ptable.lock. */
module SleepLock {
  datatype Pc =
    | Outside
    // acquiresleep
    | WantLk     // in acquire(&lk->lk)
    | HaveLk     // about to test lk->locked
    | WantPt     // in sleep, acquiring ptable.lock
    | Both       // in sleep, with both
    | DroppedLk  // in sleep, lk released, not yet SLEEPING
    | Dozing     // marked SLEEPING (unless killed), about to leave through sched
    | Asleep     // switched out
    | Woken      // back from sched, holding ptable.lock
    | Got        // lk->locked set, lk not yet released
    | Holding    // acquiresleep has returned
    // releasesleep
    | RelWantLk | RelHave | RelWantPt | RelBoth | RelWoke | RelDone

  /** `sleeping` is state == SLEEPING with chan == lk. */
  datatype P = P(pc: Pc, sleeping: bool)

  const FREE := -1
  const ENV := -2   // ptable.lock held by some other code

  /** `locked` and `pid` are the sleep-lock's fields; `owner` records whom acquiresleep last let in. */
  datatype State = State(lk: int, pt: int, locked: bool, pid: int, owner: int, procs: seq<P>, pids: seq<int>)

  datatype Event =
    | Enter(p: int) | TakeLk(p: int) | Test(p: int) | TakePt(p: int) | DropLk(p: int) | Doze(p: int) | Gone(p: int)
      | Resume(p: int) | Tidy(p: int)
    | DropGot(p: int) | Begin(p: int) | Clear(p: int) | WakeAll(p: int) | RelPt(p: int) | RelLk(p: int)
    | Kill(p: int) | EnvTake | EnvDrop

  predicate At(s: State, p: int, pc: Pc)
  {
    0 <= p < |s.procs| && s.procs[p].pc == pc
  }

  predicate Enabled(s: State, e: Event)
  {
    match e
    case Enter(p) => At(s, p, Outside)
    case TakeLk(p) => (At(s, p, WantLk) || At(s, p, RelWantLk)) && s.lk == FREE
    case Test(p) => At(s, p, HaveLk) && p < |s.pids|
    case TakePt(p) => (At(s, p, WantPt) || At(s, p, RelWantPt)) && s.pt == FREE
    case DropLk(p) => At(s, p, Both)
    case Doze(p) => At(s, p, DroppedLk)
    case Gone(p) => At(s, p, Dozing)
    case Resume(p) => At(s, p, Asleep) && !s.procs[p].sleeping && s.pt == FREE
    case Tidy(p) => At(s, p, Woken)
    case DropGot(p) => At(s, p, Got)
    case Begin(p) => At(s, p, Holding)
    case Clear(p) => At(s, p, RelHave)
    case WakeAll(p) => At(s, p, RelBoth)
    case RelPt(p) => At(s, p, RelWoke)
    case RelLk(p) => At(s, p, RelDone)
    case Kill(p) => 0 <= p < |s.procs| && s.pt == FREE
    case EnvTake => s.pt == FREE
    case EnvDrop => s.pt == ENV
  }

  function Go(s: State, p: int, pc: Pc): (s': State)
    requires 0 <= p < |s.procs|
  {
    s.(procs := s.procs[p := s.procs[p].(pc := pc)])
  }

  function Awake(procs: seq<P>): (procs': seq<P>)
  {
    seq(|procs|, i requires 0 <= i < |procs| => procs[i].(sleeping := false))
  }

  function Next(s: State, e: Event): (s': State)
    requires Enabled(s, e)
  {
    match e
    case Enter(p) => Go(s, p, WantLk)
    case TakeLk(p) => Go(s.(lk := p), p, if s.procs[p].pc == WantLk then HaveLk else RelHave)
    case Test(p) => if s.locked then Go(s, p, WantPt) else Go(s.(locked := true, pid := s.pids[p], owner := p), p, Got)
    case TakePt(p) => Go(s.(pt := p), p, if s.procs[p].pc == WantPt then Both else RelBoth)
    case DropLk(p) => Go(s.(lk := FREE), p, DroppedLk)
    case Doze(p) => s.(procs := s.procs[p := P(Dozing, true)])
    case Gone(p) => Go(s.(pt := FREE), p, Asleep)
    case Resume(p) => Go(s.(pt := p), p, Woken)
    case Tidy(p) => Go(s.(pt := FREE), p, WantLk)
    case DropGot(p) => Go(s.(lk := FREE), p, Holding)
    case Begin(p) => Go(s, p, RelWantLk)
    case Clear(p) => Go(s.(locked := false, pid := 0, owner := FREE), p, RelWantPt)
    case WakeAll(p) => Go(s.(procs := Awake(s.procs)), p, RelWoke)
    case RelPt(p) => Go(s.(pt := FREE), p, RelDone)
    case RelLk(p) => Go(s.(lk := FREE), p, Outside)
    case Kill(p) => s.(procs := s.procs[p := s.procs[p].(sleeping := false)])
    case EnvTake => s.(pt := ENV)
    case EnvDrop => s.(pt := FREE)
  }

  ghost predicate Init(s: State)
  {
    && s.lk == s.pt == s.owner == FREE && !s.locked && s.pid == 0
    && (forall p :: 0 <= p < |s.procs| ==> s.procs[p] == P(Outside, false))
    && |s.pids| == |s.procs| && (forall p :: 0 <= p < |s.pids| ==> s.pids[p] > 0)
    && (forall p, q :: 0 <= p < q < |s.pids| ==> s.pids[p] != s.pids[q])
  }

  ghost predicate Moves(run: seq<State>, i: int)
    requires 0 <= i < |run| - 1
  {
    exists e :: Enabled(run[i], e) && run[i + 1] == Next(run[i], e)
  }

  ghost predicate IsRun(run: seq<State>)
  {
    |run| > 0 && Init(run[0]) && forall i {:trigger Moves(run, i)} :: 0 <= i < |run| - 1 ==> Moves(run, i)
  }

  // The invariant.

  predicate HasLk(pc: Pc)
  {
    pc == HaveLk || pc == WantPt || pc == Both || pc == Got || pc == RelHave || pc == RelWantPt || pc == RelBoth
      || pc == RelWoke || pc == RelDone
  }

  predicate HasPt(pc: Pc)
  {
    pc == Both || pc == DroppedLk || pc == Dozing || pc == Woken || pc == RelBoth || pc == RelWoke
  }

  /** From the test that let the process in to the write that lets the next one in. */
  predicate Inside(pc: Pc)
  {
    pc == Got || pc == Holding || pc == RelWantLk || pc == RelHave
  }

  /** releasesleep has cleared the lock but has yet to wake the sleepers. */
  predicate Waking(s: State)
  {
    0 <= s.lk < |s.procs| && (s.procs[s.lk].pc == RelWantPt || s.procs[s.lk].pc == RelBoth)
  }

  predicate Right(s: State, p: int)
    requires 0 <= p < |s.procs|
  {
    var q := s.procs[p];
    && (s.lk == p <==> HasLk(q.pc)) && (s.pt == p <==> HasPt(q.pc)) && (s.owner == p <==> Inside(q.pc))
    && (q.sleeping ==> q.pc == Dozing || q.pc == Asleep)
    && (q.pc == WantPt || q.pc == Both ==> s.locked)
    && (q.pc == DroppedLk || q.sleeping ==> s.locked || Waking(s))
  }

  ghost predicate Inv(s: State)
  {
    && (s.locked <==> 0 <= s.owner < |s.procs|) && |s.pids| == |s.procs|
    && s.pid == (if s.locked then s.pids[s.owner] else 0)
    && (s.lk == FREE || 0 <= s.lk < |s.procs|) && (s.pt == FREE || s.pt == ENV || 0 <= s.pt < |s.procs|)
    && (forall p {:trigger Right(s, p)} :: 0 <= p < |s.procs| ==> Right(s, p))
    && (forall p :: 0 <= p < |s.pids| ==> s.pids[p] > 0)
    && (forall p, q :: 0 <= p < q < |s.pids| ==> s.pids[p] != s.pids[q])
  }

  /** A step by p that leaves the others' parts alone keeps the invariant if p ends up right. */
  lemma Mine(s: State, s': State, p: int)
    requires Inv(s) && 0 <= p < |s.procs| && |s'.procs| == |s.procs| && s'.pids == s.pids && Right(s', p)
    requires forall r :: 0 <= r < |s.procs| && r != p ==> s'.procs[r] == s.procs[r]
    requires forall r {:trigger s.procs[r]} :: 0 <= r < |s.procs| && r != p ==>
      (s'.lk == r <==> s.lk == r) && (s'.pt == r <==> s.pt == r) && (s'.owner == r <==> s.owner == r)
    requires (s'.lk == FREE || 0 <= s'.lk < |s.procs|) && (s'.pt == FREE || s'.pt == ENV || 0 <= s'.pt < |s.procs|)
    requires (s'.locked <==> 0 <= s'.owner < |s.procs|) && s'.pid == if s'.locked then s.pids[s'.owner] else 0
    requires s.locked && !s'.locked ==> s.lk == p
    requires s.locked || Waking(s) ==> s'.locked || Waking(s')
    ensures Inv(s')
  {
    forall r | 0 <= r < |s.procs|
      ensures Right(s', r)
    {
      assert Right(s, r);
    }
  }

  lemma InvStep(s: State, e: Event, s': State)
    requires Inv(s) && Enabled(s, e) && s' == Next(s, e)
    ensures Inv(s')
  {
    if e.EnvTake? || e.EnvDrop? {
      InvEnv(s, s');
    } else {
      if e.WakeAll? {
        InvWake(s, s', e.p);
      } else if e.Enter? || e.Test? || e.DropLk? || e.DropGot? {
        InvAcquirer(s, e, s');
      } else if e.Doze? || e.Gone? || e.Resume? || e.Tidy? {
        InvSleeper(s, e, s');
      } else if e.TakeLk? || e.TakePt? || e.Kill? {
        InvTakes(s, e, s');
      } else if e.Clear? {
        InvClear(s, e, s');
      } else if e.Begin? {
        InvBegin(s, e, s');
      } else {
        InvReleaser(s, e, s');
      }
    }
  }

  lemma InvAcquirer(s: State, e: Event, s': State)
    requires Inv(s) && Enabled(s, e) && s' == Next(s, e) && (e.Enter? || e.Test? || e.DropLk? || e.DropGot?)
    ensures Inv(s')
  {
    assert Right(s, e.p);
    Mine(s, s', e.p);
  }

  lemma InvSleeper(s: State, e: Event, s': State)
    requires Inv(s) && Enabled(s, e) && s' == Next(s, e) && (e.Doze? || e.Gone? || e.Resume? || e.Tidy?)
    ensures Inv(s')
  {
    assert Right(s, e.p);
    Mine(s, s', e.p);
  }

  lemma InvTakes(s: State, e: Event, s': State)
    requires Inv(s) && Enabled(s, e) && s' == Next(s, e) && (e.TakeLk? || e.TakePt? || e.Kill?)
    ensures Inv(s')
  {
    assert Right(s, e.p);
    Mine(s, s', e.p);
  }

  lemma InvReleaser(s: State, e: Event, s': State)
    requires Inv(s) && Enabled(s, e) && s' == Next(s, e) && (e.RelPt? || e.RelLk?)
    ensures Inv(s')
  {
    assert Right(s, e.p);
    Mine(s, s', e.p);
  }

  lemma InvBegin(s: State, e: Event, s': State)
    requires Inv(s) && Enabled(s, e) && s' == Next(s, e) && e.Begin?
    ensures Inv(s')
  {
    assert Right(s, e.p);
    Mine(s, s', e.p);
  }

  lemma InvClear(s: State, e: Event, s': State)
    requires Inv(s) && Enabled(s, e) && s' == Next(s, e) && e.Clear?
    ensures Inv(s')
  {
    assert Right(s, e.p);
    Mine(s, s', e.p);
  }

  lemma InvEnv(s: State, s': State)
    requires Inv(s) && (s' == s.(pt := ENV) || s' == s.(pt := FREE)) && s.pt < 0
    ensures Inv(s')
  {
    forall r | 0 <= r < |s.procs|
      ensures Right(s', r)
    {
      assert Right(s, r);
    }
  }

  lemma InvWake(s: State, s': State, p: int)
    requires Inv(s) && At(s, p, RelBoth) && s' == Next(s, WakeAll(p))
    ensures Inv(s')
  {
    assert Right(s, p);
    forall r | 0 <= r < |s.procs|
      ensures Right(s', r)
    {
      assert Right(s, r);
    }
  }

  lemma {:induction false} InvRun(run: seq<State>, k: int)
    requires IsRun(run) && 0 <= k < |run|
    ensures Inv(run[k])
    decreases k
  {
    if k > 0 {
      InvRun(run, k - 1);
      assert Moves(run, k - 1);
      var e :| Enabled(run[k - 1], e) && run[k] == Next(run[k - 1], e);
      InvStep(run[k - 1], e, run[k]);
    }
  }

  // What every run keeps.

  /** At most one process is inside, and the lock's fields say which. */
  lemma MutualExclusion(run: seq<State>, k: int, p: int, q: int)
    requires IsRun(run) && 0 <= k < |run| && 0 <= p < |run[k].procs| && 0 <= q < |run[k].procs|
    requires Inside(run[k].procs[p].pc) && Inside(run[k].procs[q].pc)
    ensures p == q && run[k].locked && |run[k].pids| == |run[k].procs| && run[k].pid == run[k].pids[p]
  {
    InvRun(run, k);
    assert Right(run[k], p) && Right(run[k], q);
  }

  /** With the inner spinlock free, whoever sleeps on the lock sleeps because it is taken. */
  lemma NoLostWakeup(run: seq<State>, k: int, p: int)
    requires IsRun(run) && 0 <= k < |run| && 0 <= p < |run[k].procs| && run[k].lk == FREE && run[k].procs[p].sleeping
    ensures run[k].locked && 0 <= run[k].owner < |run[k].procs| && Inside(run[k].procs[run[k].owner].pc)
  {
    InvRun(run, k);
    assert Right(run[k], p) && Right(run[k], run[k].owner);
  }

  /** holdingsleep, which tests locked and pid under lk, is true of the process inside and of no other. */
  lemma HoldingSleepExact(run: seq<State>, k: int, p: int)
    requires IsRun(run) && 0 <= k < |run| && 0 <= p < |run[k].procs|
    ensures |run[k].pids| == |run[k].procs|
    ensures run[k].locked && run[k].pid == run[k].pids[p] <==> Inside(run[k].procs[p].pc)
  {
    InvRun(run, k);
    assert Right(run[k], p);
  }

  /** A step of whoever holds ptable.lock or, that being free, lk. */
  predicate ByHolder(s: State, e: Event)
  {
    e == EnvDrop || (!e.EnvTake? && !e.Kill? && e.p == if s.pt == FREE then s.lk else s.pt)
  }

  /** The two spinlocks are taken in one order, so they cannot deadlock: their holder, or the holder of
      ptable.lock it waits for, can move. */
  lemma LocksMove(run: seq<State>, k: int)
    requires IsRun(run) && 0 <= k < |run| && (run[k].lk != FREE || run[k].pt != FREE)
    ensures exists e :: Enabled(run[k], e) && ByHolder(run[k], e)
  {
    InvRun(run, k);
    var s := run[k];
    if s.pt == ENV {
      assert Enabled(s, EnvDrop);
    } else {
      var p := if s.pt == FREE then s.lk else s.pt;
      assert Right(s, p);
      var e := match s.procs[p].pc
        case Both => DropLk(p)
        case DroppedLk => Doze(p)
        case Dozing => Gone(p)
        case Woken => Tidy(p)
        case RelBoth => WakeAll(p)
        case RelWoke => RelPt(p)
        case HaveLk => Test(p)
        case Got => DropGot(p)
        case RelHave => Clear(p)
        case RelDone => RelLk(p)
        case _ => TakePt(p);
      assert Enabled(s, e);
    }
  }
}
