/** proc.c: the process table. One method per stretch of code that holds ptable.lock, and one per write the
    code makes without it; every interleaving of these is a run. A process is its index in the table. */
module Proc {
  import opened Params

  const NPROC := 64

  datatype State = UNUSED | EMBRYO | SLEEPING | RUNNABLE | RUNNING | ZOMBIE

  /** What a process sleeps on: in wait, its own entry; elsewhere some other kernel address. */
  datatype Chan = NoChan | Entry(p: int) | Other(addr: int)

  datatype Proc = Proc(state: State, pid: int, parent: int, chan: Chan, killed: bool)

  const NONE := -1  // the null parent

  type Table = seq<Proc>

  predicate Alive(st: State)
  {
    st == SLEEPING || st == RUNNABLE || st == RUNNING
  }

  predicate IsChild(t: Table, c: int, p: int)
  {
    0 <= c < |t| && t[c].parent == p
  }

  predicate IsZombieChild(t: Table, c: int, p: int)
  {
    IsChild(t, c, p) && t[c].state == ZOMBIE
  }

  ghost predicate HasChild(t: Table, p: int)
  {
    exists c :: IsChild(t, c, p)
  }

  ghost predicate HasZombie(t: Table, p: int)
  {
    exists c :: IsZombieChild(t, c, p)
  }

  /** A process asleep in wait sleeps on itself, has a child, and has none left to collect. */
  ghost predicate WaitsRightly(t: Table, fork: map<int, int>, p: int)
    requires 0 <= p < |t|
  {
    t[p].state == SLEEPING && t[p].chan.Entry? ==>
      t[p].chan.p == p && HasChild(t, p) && !HasZombie(t, p) && forall e :: e in fork ==> fork[e] != p
  }

  /** Every started process but init has a live parent; an unused entry has none; an entry being set up has
      none or the process that forks it. */
  ghost predicate ParentRight(t: Table, fork: map<int, int>, init: int, p: int)
    requires 0 <= p < |t|
  {
    match t[p].state
    case UNUSED => t[p].parent == NONE
    case EMBRYO => p in fork && 0 <= fork[p] < |t| && Alive(t[fork[p]].state)
      && (t[p].parent == NONE || t[p].parent == fork[p])
    case _ => if p == init then t[p].parent == NONE
      else 0 <= t[p].parent < |t| && t[p].parent != p && Alive(t[t[p].parent].state)
  }

  /** Pids of entries in use are distinct, positive, already given out and not yet returned by wait. */
  ghost predicate PidRight(t: Table, nextpid: int, reaped: seq<int>, p: int)
    requires 0 <= p < |t|
  {
    t[p].state != UNUSED ==>
      && 0 < t[p].pid < nextpid && t[p].pid !in reaped
      && forall q {:trigger t[q]} :: 0 <= q < |t| && q != p && t[q].state != UNUSED ==> t[q].pid != t[p].pid
  }

  /** The invariant of the table whenever ptable.lock is free. `fork` says which process is setting up each
      EMBRYO entry; `reaped` lists the pids wait has returned. */
  ghost predicate Family(t: Table, fork: map<int, int>, init: int, nextpid: int, reaped: seq<int>)
  {
    && |t| == NPROC && 0 <= init < NPROC && Alive(t[init].state)
    && (forall p :: p in fork ==> 0 <= p < NPROC && t[p].state == EMBRYO)
    && (forall p, q :: p in fork && q in fork && p != q ==> fork[p] != fork[q])
    && (forall p {:trigger ParentRight(t, fork, init, p)} :: 0 <= p < NPROC ==> ParentRight(t, fork, init, p))
    && (forall p {:trigger WaitsRightly(t, fork, p)} :: 0 <= p < NPROC ==> WaitsRightly(t, fork, p))
    && (forall p {:trigger PidRight(t, nextpid, reaped, p)} :: 0 <= p < NPROC ==> PidRight(t, nextpid, reaped, p))
    && Distinct(reaped) && (forall i :: 0 <= i < |reaped| ==> reaped[i] < nextpid)
  }

  /** wakeup1 on one entry. */
  function Wake(p: Proc, chan: Chan): (p': Proc)
  {
    if p.state == SLEEPING && p.chan == chan then p.(state := RUNNABLE) else p
  }

  ghost predicate Woken(t: Table, t': Table, chan: Chan)
  {
    |t'| == |t| && forall i :: 0 <= i < |t| ==> t'[i] == Wake(t[i], chan)
  }

  /** What exit does to an entry: wake it if it waits as p's parent, or as init when init inherits a zombie;
      give it to init if it is p's child. */
  function Disowned(e: Proc, parent: int, zombie: bool, child: bool, init: int): (e': Proc)
  {
    var a := Wake(e, Entry(parent));
    var w := if zombie then Wake(a, Entry(init)) else a;
    if child then w.(parent := init) else w
  }

  /** The table exit leaves: p a zombie, its parent awake, its children init's, init awake if one is a zombie. */
  ghost predicate Exited(t: Table, t': Table, init: int, p: int)
    requires 0 <= p < |t|
  {
    |t'| == |t| && forall i :: 0 <= i < |t| ==>
      var e := Disowned(t[i], t[p].parent, HasZombie(t, p), t[i].parent == p, init);
      t'[i] == if i == p then e.(state := ZOMBIE) else e
  }

  lemma ExitKeeps(t: Table, t': Table, fork: map<int, int>, init: int, nextpid: int, reaped: seq<int>, p: int)
    requires Family(t, fork, init, nextpid, reaped) && 0 <= p < NPROC && p != init && t[p].state == RUNNING
    requires forall e :: e in fork ==> fork[e] != p
    requires Exited(t, t', init, p)
    ensures Family(t', fork, init, nextpid, reaped)
  {
    assert ParentRight(t, fork, init, p);
    forall i | 0 <= i < NPROC
      ensures ParentRight(t', fork, init, i) && PidRight(t', nextpid, reaped, i) && WaitsRightly(t', fork, i)
    {
      assert ParentRight(t, fork, init, i) && PidRight(t, nextpid, reaped, i) && WaitsRightly(t, fork, i);
      ExitParent(t, t', fork, init, p, i);
      ExitPid(t, t', init, nextpid, reaped, p, i);
      ExitWaits(t, t', fork, init, p, i);
    }
  }

  lemma ExitParent(t: Table, t': Table, fork: map<int, int>, init: int, p: int, i: int)
    requires 0 <= p < |t| && 0 <= i < |t| && 0 <= init < |t| && p != init && t[p].state == RUNNING
    requires forall e :: e in fork ==> fork[e] != p
    requires Exited(t, t', init, p) && ParentRight(t, fork, init, i) && ParentRight(t, fork, init, p)
    requires Alive(t[init].state)
    ensures ParentRight(t', fork, init, i)
  {
  }

  lemma ExitPid(t: Table, t': Table, init: int, nextpid: int, reaped: seq<int>, p: int, i: int)
    requires 0 <= p < |t| && 0 <= i < |t| && t[p].state == RUNNING && Exited(t, t', init, p)
    requires PidRight(t, nextpid, reaped, i)
    ensures PidRight(t', nextpid, reaped, i)
  {
  }

  /** Nobody is left asleep in wait with a zombie child: p's parent is woken, and so is init if it inherits one. */
  lemma ExitWaits(t: Table, t': Table, fork: map<int, int>, init: int, p: int, i: int)
    requires 0 <= p < |t| && 0 <= i < |t| && p != init && t[p].state == RUNNING && t[p].parent != p
    requires Exited(t, t', init, p) && WaitsRightly(t, fork, i)
    requires t[i].state == EMBRYO ==> i != init
    ensures WaitsRightly(t', fork, i)
  {
    if t'[i].state == SLEEPING && t'[i].chan.Entry? {
      var c :| IsChild(t, c, i);
      assert IsChild(t', c, i);
      forall z | IsChild(t', z, i)
        ensures t'[z].state != ZOMBIE
      {
        assert IsChild(t, z, t[z].parent);
        assert t[z].state == ZOMBIE ==> IsZombieChild(t, z, t[z].parent);
      }
    }
  }

  /** wait has collected child c of p. */
  lemma ReapKeeps(t: Table, t': Table, fork: map<int, int>, init: int, nextpid: int, reaped: seq<int>, p: int, c: int)
    requires Family(t, fork, init, nextpid, reaped) && 0 <= p < NPROC && Alive(t[p].state) && IsZombieChild(t, c, p)
    requires t' == t[c := t[c].(state := UNUSED, pid := 0, parent := NONE, killed := false)]
    ensures Family(t', fork, init, nextpid, reaped + [t[c].pid])
  {
    assert PidRight(t, nextpid, reaped, c) && ParentRight(t, fork, init, c);
    forall i | 0 <= i < NPROC
      ensures ParentRight(t', fork, init, i)
    {
      assert ParentRight(t, fork, init, i);
    }
    forall i | 0 <= i < NPROC
      ensures PidRight(t', nextpid, reaped + [t[c].pid], i)
    {
      assert PidRight(t, nextpid, reaped, i);
    }
    forall i | 0 <= i < NPROC
      ensures WaitsRightly(t', fork, i)
    {
      assert WaitsRightly(t, fork, i);
      if t'[i].state == SLEEPING && t'[i].chan.Entry? {
        var k :| IsChild(t, k, i);
        assert IsChild(t', k, i);
        assert forall z :: IsZombieChild(t', z, i) ==> IsZombieChild(t, z, i);
      }
    }
  }

  /** p, with a child and none to collect, goes to sleep in wait. */
  lemma SleepKeeps(t: Table, t': Table, fork: map<int, int>, init: int, nextpid: int, reaped: seq<int>, p: int,
                   chan: Chan)
    requires Family(t, fork, init, nextpid, reaped) && 0 <= p < NPROC && t[p].state == RUNNING
    requires chan.Entry? ==> chan.p == p && HasChild(t, p) && !HasZombie(t, p) && forall e :: e in fork ==> fork[e] != p
    requires t' == t[p := t[p].(state := SLEEPING, chan := chan)]
    ensures Family(t', fork, init, nextpid, reaped)
  {
    SameFamily(t, t', fork, init, nextpid, reaped);
    assert chan.Entry? ==> WaitsRightly(t', fork, p) by {
      if chan.Entry? {
        var c :| IsChild(t, c, p);
        assert IsChild(t', c, p);
        assert forall z :: IsZombieChild(t', z, p) ==> IsZombieChild(t, z, p);
      }
    }
    forall i | 0 <= i < NPROC
      ensures WaitsRightly(t', fork, i)
    {
      if i != p {
        WaitsStill(t, t', fork, i);
      }
    }
  }

  lemma WaitsStill(t: Table, t': Table, fork: map<int, int>, i: int)
    requires |t'| == |t| && 0 <= i < |t| && WaitsRightly(t, fork, i) && t'[i] == t[i]
    requires forall j :: 0 <= j < |t| ==>
      t'[j].parent == t[j].parent && (t'[j].state == ZOMBIE ==> t[j].state == ZOMBIE)
    ensures WaitsRightly(t', fork, i)
  {
    if t'[i].state == SLEEPING && t'[i].chan.Entry? {
      var c :| IsChild(t, c, i);
      assert IsChild(t', c, i);
      assert forall z :: IsZombieChild(t', z, i) ==> IsZombieChild(t, z, i);
    }
  }

  /** A step that only moves live processes between live states keeps parents and pids right. */
  lemma SameFamily(t: Table, t': Table, fork: map<int, int>, init: int, nextpid: int, reaped: seq<int>)
    requires Family(t, fork, init, nextpid, reaped) && |t'| == |t|
    requires forall i :: 0 <= i < |t| ==>
      t'[i].pid == t[i].pid && t'[i].parent == t[i].parent
      && (t'[i].state == t[i].state || (Alive(t[i].state) && Alive(t'[i].state)))
    ensures forall i {:trigger ParentRight(t', fork, init, i)} :: 0 <= i < NPROC ==> ParentRight(t', fork, init, i)
    ensures forall i {:trigger PidRight(t', nextpid, reaped, i)} :: 0 <= i < NPROC ==> PidRight(t', nextpid, reaped, i)
    ensures forall i :: i in fork ==> t'[i].state == EMBRYO
  {
    forall i | 0 <= i < NPROC
      ensures ParentRight(t', fork, init, i) && PidRight(t', nextpid, reaped, i)
    {
      assert ParentRight(t, fork, init, i) && PidRight(t, nextpid, reaped, i);
    }
  }

  /** Waking sleepers, letting processes run and taking them off: none goes to sleep. */
  lemma RunKeeps(t: Table, t': Table, fork: map<int, int>, init: int, nextpid: int, reaped: seq<int>)
    requires Family(t, fork, init, nextpid, reaped) && |t'| == |t|
    requires forall i :: 0 <= i < |t| ==>
      && t'[i].pid == t[i].pid && t'[i].parent == t[i].parent
      && (t'[i].state == t[i].state || (Alive(t[i].state) && Alive(t'[i].state)))
      && (t'[i].state == SLEEPING ==> t[i].state == SLEEPING && t'[i].chan == t[i].chan)
    ensures Family(t', fork, init, nextpid, reaped)
  {
    SameFamily(t, t', fork, init, nextpid, reaped);
    forall i | 0 <= i < NPROC
      ensures WaitsRightly(t', fork, i)
    {
      assert WaitsRightly(t, fork, i);
      if t'[i].state == SLEEPING && t'[i].chan.Entry? {
        var c :| IsChild(t, c, i);
        assert IsChild(t', c, i);
        assert forall z :: IsZombieChild(t', z, i) ==> IsZombieChild(t, z, i);
      }
    }
  }

  /** allocproc takes entry e, and a fresh pid, for a fork by p. */
  lemma AllocKeeps(t: Table, t': Table, fork: map<int, int>, init: int, nextpid: int, reaped: seq<int>, p: int, e: int,
                   fork': map<int, int>, nextpid': int)
    requires Family(t, fork, init, nextpid, reaped) && 0 <= p < NPROC && t[p].state == RUNNING
    requires forall i :: i in fork ==> fork[i] != p
    requires 0 <= e < NPROC && t[e].state == UNUSED && 0 < nextpid
    requires t' == t[e := t[e].(state := EMBRYO, pid := nextpid)]
    requires fork' == fork[e := p] && nextpid' == nextpid + 1
    ensures Family(t', fork', init, nextpid', reaped)
  {
    forall i | 0 <= i < NPROC && t[i].state != UNUSED
      ensures t[i].pid < nextpid
    {
      assert PidRight(t, nextpid, reaped, i);
    }
    assert nextpid !in reaped;
    forall i | 0 <= i < NPROC
      ensures ParentRight(t', fork', init, i) && PidRight(t', nextpid', reaped, i)
    {
      assert ParentRight(t, fork, init, i) && PidRight(t, nextpid, reaped, i);
    }
    forall i | 0 <= i < NPROC
      ensures WaitsRightly(t', fork', i)
    {
      assert WaitsRightly(t, fork, i);
      if t'[i].state == SLEEPING && t'[i].chan.Entry? {
        var c :| IsChild(t, c, i);
        assert IsChild(t', c, i);
        assert forall z :: IsZombieChild(t', z, i) ==> IsZombieChild(t, z, i);
      }
    }
  }

  /** The entry p was setting up is given up, gets its parent, or starts. */
  lemma ForkKeeps(t: Table, t': Table, fork: map<int, int>, fork': map<int, int>, init: int, nextpid: int,
                  reaped: seq<int>, p: int, e: int)
    requires Family(t, fork, init, nextpid, reaped) && e in fork && fork[e] == p && 0 <= p < NPROC
    requires t[p].state == RUNNING
    requires
      || (t[e].parent == NONE && t' == t[e := t[e].(state := UNUSED)] && fork' == fork - {e})
      || (t' == t[e := t[e].(parent := p)] && fork' == fork)
      || (t[e].parent == p && t' == t[e := t[e].(state := RUNNABLE)] && fork' == fork - {e})
    ensures Family(t', fork', init, nextpid, reaped)
  {
    assert ParentRight(t, fork, init, e);
    forall i | 0 <= i < NPROC
      ensures ParentRight(t', fork', init, i) && PidRight(t', nextpid, reaped, i)
    {
      assert ParentRight(t, fork, init, i) && PidRight(t, nextpid, reaped, i);
    }
    forall i | 0 <= i < NPROC
      ensures WaitsRightly(t', fork', i)
    {
      assert WaitsRightly(t, fork, i);
      if t'[i].state == SLEEPING && t'[i].chan.Entry? {
        var c :| IsChild(t, c, i);
        assert IsChild(t', c, i);
        assert forall z :: IsZombieChild(t', z, i) ==> IsZombieChild(t, z, i);
      }
    }
  }

  /** c is p's first zombie child in table order. */
  ghost predicate IsFirstZombie(t: Table, c: int, p: int)
  {
    IsZombieChild(t, c, p) && forall b :: IsZombieChild(t, b, p) ==> c <= b
  }

  /** Entry c, of the process pid, is unused again. */
  ghost predicate Cleared(t: Table, t': Table, c: int, pid: int)
  {
    0 <= c < |t| && t[c].pid == pid && t' == t[c := t[c].(state := UNUSED, pid := 0, parent := NONE, killed := false)]
  }

  ghost predicate IsFirstPid(t: Table, i: int, pid: int)
  {
    0 <= i < |t| && t[i].pid == pid && forall j :: 0 <= j < i ==> t[j].pid != pid
  }

  function Killed(p: Proc): (p': Proc)
  {
    p.(killed := true, state := if p.state == SLEEPING then RUNNABLE else p.state)
  }

  datatype WaitResult = Collected(pid: int) | NoChild | Slept

  class PTable {
    const proc: array<Proc>
    const init: int
    var nextpid: int
    ghost var fork: map<int, int>
    ghost var reaped: seq<int>

    ghost predicate Valid()
      reads this, proc
    {
      && proc.Length == NPROC && nextpid > 0
      && Family(proc[..], fork, init, nextpid, reaped)
    }

    /** userinit's table: init, ready to run, and nothing else. */
    constructor ()
      ensures Valid() && fresh(proc) && init == 0 && fork == map[] && reaped == []
    {
      var unused := Proc(UNUSED, 0, NONE, NoChan, false);
      proc := new Proc[NPROC](_ => unused);
      init, nextpid := 0, 2;
      fork, reaped := map[], [];
      new;
      proc[0] := Proc(RUNNABLE, 1, NONE, NoChan, false);
      assert forall i :: 0 < i < NPROC ==> proc[..][i] == unused;
      assert proc[..][0].pid == 1;
    }

    method Wakeup1(chan: Chan)
      modifies proc
      ensures Woken(old(proc[..]), proc[..], chan)
    {
      var i := 0;
      while i < proc.Length
        invariant 0 <= i <= proc.Length
        invariant forall j :: 0 <= j < proc.Length ==>
          proc[j] == if j < i then Wake(old(proc[j]), chan) else old(proc[j])
      {
        if proc[i].state == SLEEPING && proc[i].chan == chan {
          proc[i] := proc[i].(state := RUNNABLE);
        }
        i := i + 1;
      }
    }

    method Wakeup(chan: Chan)
      requires Valid()
      modifies proc
      ensures Valid() && Woken(old(proc[..]), proc[..], chan)
    {
      Wakeup1(chan);
      RunKeeps(old(proc[..]), proc[..], fork, init, nextpid, reaped);
    }

    /** allocproc's locked part, called by p for fork: the first unused entry, NONE if there is none. */
    method AllocProc(p: int) returns (e: int)
      requires Valid() && 0 <= p < NPROC && proc[p].state == RUNNING && (forall i :: i in fork ==> fork[i] != p)
      modifies this`nextpid, this`fork, proc
      ensures Valid()
      ensures e == NONE ==>
        (forall i :: 0 <= i < NPROC ==> proc[i].state != UNUSED) && proc[..] == old(proc[..])
          && nextpid == old(nextpid) && fork == old(fork)
      ensures e != NONE ==>
        && 0 <= e < NPROC && old(proc[e]).state == UNUSED && (forall i :: 0 <= i < e ==> proc[i].state != UNUSED)
        && proc[..] == old(proc[..])[e := old(proc[e]).(state := EMBRYO, pid := old(nextpid))]
        && nextpid == old(nextpid) + 1 && fork == old(fork)[e := p]
    {
      e := 0;
      while e < NPROC && proc[e].state != UNUSED
        invariant 0 <= e <= NPROC && forall i :: 0 <= i < e ==> proc[i].state != UNUSED
      {
        e := e + 1;
      }
      if e == NPROC {
        return NONE;
      }
      AllocKeeps(proc[..], proc[..][e := proc[e].(state := EMBRYO, pid := nextpid)], fork, init, nextpid, reaped, p, e,
                 fork[e := p], nextpid + 1);
      proc[e] := proc[e].(state := EMBRYO, pid := nextpid);
      nextpid := nextpid + 1;
      fork := fork[e := p];
      assert proc[..] == old(proc[..])[e := old(proc[e]).(state := EMBRYO, pid := old(nextpid))];
    }

    /** fork, or allocproc, gives entry e up for want of memory. */
    method AbandonFork(p: int, e: int)
      requires Valid() && 0 <= p < NPROC && proc[p].state == RUNNING && e in fork && fork[e] == p
      requires proc[e].parent == NONE
      modifies this`fork, proc
      ensures Valid() && fork == old(fork) - {e} && proc[..] == old(proc[..])[e := old(proc[e]).(state := UNUSED)]
    {
      ForkKeeps(proc[..], proc[..][e := proc[e].(state := UNUSED)], fork, fork - {e}, init, nextpid, reaped, p, e);
      proc[e] := proc[e].(state := UNUSED);
      fork := fork - {e};
      assert proc[..] == old(proc[..])[e := old(proc[e]).(state := UNUSED)];
    }

    /** fork's write of np->parent, without the lock. */
    method SetParent(p: int, e: int)
      requires Valid() && 0 <= p < NPROC && proc[p].state == RUNNING && e in fork && fork[e] == p
      modifies proc
      ensures Valid() && proc[..] == old(proc[..])[e := old(proc[e]).(parent := p)]
    {
      ForkKeeps(proc[..], proc[..][e := proc[e].(parent := p)], fork, fork, init, nextpid, reaped, p, e);
      proc[e] := proc[e].(parent := p);
      assert proc[..] == old(proc[..])[e := old(proc[e]).(parent := p)];
    }

    /** fork's last part: the child may run. */
    method StartChild(p: int, e: int) returns (pid: int)
      requires Valid() && 0 <= p < NPROC && proc[p].state == RUNNING && e in fork && fork[e] == p && proc[e].parent == p
      modifies this`fork, proc
      ensures Valid() && fork == old(fork) - {e} && proc[..] == old(proc[..])[e := old(proc[e]).(state := RUNNABLE)]
      ensures pid == proc[e].pid
    {
      pid := proc[e].pid;
      ForkKeeps(proc[..], proc[..][e := proc[e].(state := RUNNABLE)], fork, fork - {e}, init, nextpid, reaped, p, e);
      proc[e] := proc[e].(state := RUNNABLE);
      fork := fork - {e};
      assert proc[..] == old(proc[..])[e := old(proc[e]).(state := RUNNABLE)];
    }

    /** exit's locked part, by p; init may not exit. */
    method Exit(p: int)
      requires Valid() && 0 <= p < NPROC && p != init && proc[p].state == RUNNING
      requires forall e :: e in fork ==> fork[e] != p
      modifies proc
      ensures Valid() && Exited(old(proc[..]), proc[..], init, p)
    {
      ghost var t := proc[..];
      var parent := proc[p].parent;
      Wakeup1(Entry(parent));
      var i := 0;
      ghost var zombie := false;
      while i < NPROC
        invariant 0 <= i <= NPROC && (zombie <==> exists c :: c < i && IsZombieChild(t, c, p))
        invariant forall j :: 0 <= j < NPROC ==>
          proc[j] == Disowned(t[j], parent, zombie, j < i && t[j].parent == p, init)
      {
        if proc[i].parent == p {
          proc[i] := proc[i].(parent := init);
          if proc[i].state == ZOMBIE {
            assert IsZombieChild(t, i, p);
            zombie := true;
            Wakeup1(Entry(init));
          }
        }
        i := i + 1;
      }
      assert zombie <==> HasZombie(t, p);
      proc[p] := proc[p].(state := ZOMBIE);
      ExitKeeps(t, proc[..], fork, init, nextpid, reaped, p);
    }

    /** wait's locked part, by p: from acquiring the lock, or waking up, to returning or going to sleep. */
    method WaitScan(p: int) returns (r: WaitResult)
      requires Valid() && 0 <= p < NPROC && proc[p].state == RUNNING && (forall e :: e in fork ==> fork[e] != p)
      modifies this`reaped, proc
      ensures Valid()
      ensures match r
        case Collected(pid) => reaped == old(reaped) + [pid]
          && exists c :: IsFirstZombie(old(proc[..]), c, p) && Cleared(old(proc[..]), proc[..], c, pid)
        case NoChild =>
          !HasZombie(old(proc[..]), p) && (HasChild(old(proc[..]), p) ==> old(proc[p]).killed)
            && proc[..] == old(proc[..]) && reaped == old(reaped)
        case Slept =>
          !HasZombie(old(proc[..]), p) && HasChild(old(proc[..]), p) && !old(proc[p]).killed && reaped == old(reaped)
            && proc[..] == old(proc[..])[p := old(proc[p]).(state := SLEEPING, chan := Entry(p))]
    {
      ghost var t := proc[..];
      var havekids, c := false, 0;
      while c < NPROC && !(proc[c].parent == p && proc[c].state == ZOMBIE)
        invariant 0 <= c <= NPROC && (havekids <==> exists b :: b < c && IsChild(t, b, p))
        invariant forall b :: b < c ==> !IsZombieChild(t, b, p)
      {
        assert proc[c].parent == p ==> IsChild(t, c, p);
        havekids := havekids || proc[c].parent == p;
        c := c + 1;
      }
      if c < NPROC {
        assert IsZombieChild(t, c, p);
        var e := proc[c].(state := UNUSED, pid := 0, parent := NONE, killed := false);
        ReapKeeps(t, t[c := e], fork, init, nextpid, reaped, p, c);
        r := Collected(proc[c].pid);
        reaped := reaped + [proc[c].pid];
        proc[c] := e;
        assert proc[..] == t[c := e] && IsFirstZombie(t, c, p);
        return;
      }
      if !havekids || proc[p].killed {
        return NoChild;
      }
      SleepKeeps(t, t[p := t[p].(state := SLEEPING, chan := Entry(p))], fork, init, nextpid, reaped, p, Entry(p));
      proc[p] := proc[p].(state := SLEEPING, chan := Entry(p));
      assert proc[..] == t[p := t[p].(state := SLEEPING, chan := Entry(p))];
      return Slept;
    }

    /** sleep on anything but a process. */
    method SleepOn(p: int, addr: int)
      requires Valid() && 0 <= p < NPROC && proc[p].state == RUNNING
      modifies proc
      ensures Valid() && proc[..] == old(proc[..])[p := old(proc[p]).(state := SLEEPING, chan := Other(addr))]
    {
      SleepKeeps(proc[..], proc[..][p := proc[p].(state := SLEEPING, chan := Other(addr))], fork, init, nextpid, reaped,
                 p, Other(addr));
      proc[p] := proc[p].(state := SLEEPING, chan := Other(addr));
      assert proc[..] == old(proc[..])[p := old(proc[p]).(state := SLEEPING, chan := Other(addr))];
    }

    /** kill: the first entry with that pid, if any. */
    method Kill(pid: int) returns (found: bool)
      requires Valid()
      modifies proc
      ensures Valid()
      ensures !found ==> proc[..] == old(proc[..]) && forall i :: 0 <= i < NPROC ==> proc[i].pid != pid
      ensures found ==>
        exists i :: IsFirstPid(old(proc[..]), i, pid) && proc[..] == old(proc[..])[i := Killed(old(proc[..])[i])]
    {
      var i := 0;
      while i < NPROC && proc[i].pid != pid
        invariant 0 <= i <= NPROC && forall j :: 0 <= j < i ==> proc[j].pid != pid
      {
        i := i + 1;
      }
      if i == NPROC {
        return false;
      }
      proc[i] := proc[i].(killed := true);
      if proc[i].state == SLEEPING {
        proc[i] := proc[i].(state := RUNNABLE);
      }
      RunKeeps(old(proc[..]), proc[..], fork, init, nextpid, reaped);
      assert IsFirstPid(old(proc[..]), i, pid) && proc[..] == old(proc[..])[i := Killed(old(proc[..])[i])];
      return true;
    }

    /** The scheduler lets p run, takes it off, or p tidies up after sleep. */
    method Run(p: int)
      requires Valid() && 0 <= p < NPROC && proc[p].state == RUNNABLE
      modifies proc
      ensures Valid() && proc[..] == old(proc[..])[p := old(proc[p]).(state := RUNNING)]
    {
      proc[p] := proc[p].(state := RUNNING);
      RunKeeps(old(proc[..]), proc[..], fork, init, nextpid, reaped);
      assert proc[..] == old(proc[..])[p := old(proc[p]).(state := RUNNING)];
    }

    method Yield(p: int)
      requires Valid() && 0 <= p < NPROC && proc[p].state == RUNNING
      modifies proc
      ensures Valid() && proc[..] == old(proc[..])[p := old(proc[p]).(state := RUNNABLE)]
    {
      proc[p] := proc[p].(state := RUNNABLE);
      RunKeeps(old(proc[..]), proc[..], fork, init, nextpid, reaped);
      assert proc[..] == old(proc[..])[p := old(proc[p]).(state := RUNNABLE)];
    }
  }
}
