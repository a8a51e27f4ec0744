/** log.c as an interleaved protocol: any number of system calls between begin_op and end_op, the
    commit and recovery advanced one disk write at a time, and a crash possible at every point.
    log_write is two steps: it tests the size of the log before it takes log.lock, and records the
    block once it has it. */
module LogProtocol {
  import opened LogDisk
  import opened Params

  /** One log_write by one system call. */
  datatype Write = Write(op: nat, blockno: Word, data: Block)

  /** A system call inside begin_op/end_op, the distinct blocks it has logged, and whether it is in a
      log_write that has passed its tests and not yet recorded its block. */
  datatype Active = Active(op: nat, spent: set<Word>, passed: bool)

  datatype Phase =
    | Running                // log.committing == 0
    | Copying(tail: nat)     // write_log has written tail blocks
    | Installing(tail: nat)  // the header is on disk, tail blocks are home
    | Finishing              // the header is erased, committing is not yet cleared
    | PanicTooBig            // "too big a transaction"
    | PanicCommitting        // "log.committing"
    | Down                   // crashed: memory is gone
    | Recovering(tail: nat)  // recover_from_log has installed tail blocks

  /** `journal` is every write logged since the image was made, less those a crash discarded;
      its first `cut` entries were logged by committed transactions. */
  datatype State = State(
    disk: Image,
    phase: Phase,
    lh: seq<Word>,
    cache: map<Word, Block>,
    ops: seq<Active>,        // log.outstanding is its length
    waiting: set<nat>,       // processes asleep in begin_op
    nextOp: nat,
    journal: seq<Write>,
    cut: nat)

  /** The log's size in blocks, the image mkfs made, and the number of distinct blocks any one
      system call logs, which log.c assumes to be at most MAXOPBLOCKS. */
  datatype Config = Config(nlog: nat, init: Image, budget: nat)

  datatype Event =
    | Begin
    | Sleep(pid: nat)
    | Test(i: nat)
    | Record(i: nat, b: Word, data: Block)
    | End(i: nat)
    | CopyBlock | WriteHeader | InstallBlock | EraseHeader | Finish
    | Crash | Boot | RedoBlock | RedoErase

  predicate Committing(s: State)
  {
    s.phase.Copying? || s.phase.Installing? || s.phase.Finishing?
  }

  predicate NoRoom(s: State)
  {
    |s.lh| + (|s.ops| + 1) * MAXOPBLOCKS > LOGSIZE
  }

  predicate Up(s: State)
  {
    s.phase.Running? || Committing(s)
  }

  /** When a step can happen. The only thing asked of a system call is that it keeps to its
      budget of distinct blocks and makes one log_write at a time; nothing here says that a log_write
      avoids a commit, or that the log still has room when the block is recorded. */
  predicate Enabled(c: Config, s: State, e: Event)
  {
    match e
    case Begin => s.phase.Running? && !NoRoom(s)
    case Sleep(_) => Up(s) && (Committing(s) || NoRoom(s))
    case Test(i) => Up(s) && i < |s.ops| && !s.ops[i].passed
    case Record(i, b, _) =>
      && Up(s) && i < |s.ops| && s.ops[i].passed && b < |s.disk| && Home(c.nlog, b)
      && (b in s.ops[i].spent || |s.ops[i].spent| < c.budget)
    case End(i) => Up(s) && i < |s.ops| && !s.ops[i].passed
    case CopyBlock =>
      && s.phase.Copying? && s.phase.tail < |s.lh| && s.lh[s.phase.tail] in s.cache
      && START + 1 + s.phase.tail < |s.disk|
    case WriteHeader => s.phase == Copying(|s.lh|) && |s.lh| <= LOGSIZE && Geometry(c.nlog, s.disk)
    case InstallBlock => s.phase.Installing? && Redoable(s)
    case EraseHeader => s.phase == Installing(|s.lh|) && Geometry(c.nlog, s.disk)
    case Finish => s.phase.Finishing?
    case Crash => s.cut <= |s.journal|
    case Boot => s.phase.Down? && Geometry(c.nlog, s.disk)
    case RedoBlock => s.phase.Recovering? && Redoable(s)
    case RedoErase => s.phase == Recovering(|s.lh|) && Geometry(c.nlog, s.disk)
  }

  predicate Redoable(s: State)
    requires s.phase.Installing? || s.phase.Recovering?
  {
    && s.phase.tail < |s.lh| && s.lh[s.phase.tail] < |s.disk|
    && START + 1 + s.phase.tail < |s.disk|
  }

  function Next(c: Config, s: State, e: Event): (s': State)
    requires Enabled(c, s, e)
  {
    match e
    case Begin => s.(ops := s.ops + [Active(s.nextOp, {}, false)], nextOp := s.nextOp + 1)
    case Sleep(pid) => s.(waiting := s.waiting + {pid})
    case Test(i) =>
      if |s.lh| >= LOGSIZE || |s.lh| >= c.nlog - 1 then
        s.(phase := PanicTooBig)
      else
        s.(ops := s.ops[i := s.ops[i].(passed := true)])
    case Record(i, b, data) =>
      s.(lh := Recorded(s.lh, b),
         cache := s.cache[b := data],
         ops := s.ops[i := Active(s.ops[i].op, s.ops[i].spent + {b}, false)],
         journal := s.journal + [Write(s.ops[i].op, b, data)])
    case End(i) =>
      if Committing(s) then
        s.(phase := PanicCommitting)
      else
        var rest := s.ops[..i] + s.ops[i + 1..];
        if rest == [] then
          s.(ops := rest, phase := if |s.lh| > 0 then Copying(0) else Finishing)
        else
          s.(ops := rest, waiting := {})
    case CopyBlock =>
      s.(disk := s.disk[START + 1 + s.phase.tail := s.cache[s.lh[s.phase.tail]]],
         phase := Copying(s.phase.tail + 1))
    case WriteHeader =>
      s.(disk := s.disk[START := EncodeHeader(s.disk[START], s.lh)],
         phase := Installing(0), cut := |s.journal|)
    case InstallBlock =>
      s.(disk := s.disk[s.lh[s.phase.tail] := s.disk[START + 1 + s.phase.tail]],
         cache := s.cache - {s.lh[s.phase.tail]},
         phase := Installing(s.phase.tail + 1))
    case EraseHeader =>
      s.(disk := s.disk[START := EncodeHeader(s.disk[START], [])], lh := [], phase := Finishing)
    case Finish => s.(phase := Running, waiting := {})
    case Crash =>
      s.(phase := Down, lh := [], cache := map[], ops := [], waiting := {}, journal := s.journal[..s.cut])
    case Boot => s.(phase := Recovering(0), lh := Header(c.nlog, s.disk))
    case RedoBlock =>
      s.(disk := s.disk[s.lh[s.phase.tail] := s.disk[START + 1 + s.phase.tail]],
         phase := Recovering(s.phase.tail + 1))
    case RedoErase =>
      s.(disk := s.disk[START := EncodeHeader(s.disk[START], [])], lh := [], phase := Running)
  }

  predicate WellConfigured(c: Config)
  {
    && Geometry(c.nlog, c.init) && Header(c.nlog, c.init) == []
    && 1 <= c.budget <= MAXOPBLOCKS
  }

  predicate Init(c: Config, s: State)
  {
    WellConfigured(c) && s == State(c.init, Running, [], map[], [], {}, 0, [], 0)
  }

  ghost predicate Step(c: Config, s: State, s': State)
  {
    exists e :: Enabled(c, s, e) && s' == Next(c, s, e)
  }

  ghost predicate IsRun(c: Config, run: seq<State>)
  {
    && |run| > 0 && Init(c, run[0])
    && forall i :: 0 <= i < |run| - 1 ==> Step(c, run[i], run[i + 1])
  }

  // What a list of writes makes of an image.

  function Replay(v: Image, ws: seq<Write>): (r: Image)
    ensures |r| == |v|
  {
    if ws == [] then v
    else
      var prior := Replay(v, ws[..|ws| - 1]);
      var w := ws[|ws| - 1];
      if w.blockno < |v| then prior[w.blockno := w.data] else prior
  }

  /** The home blocks after every committed transaction. */
  function Durable(c: Config, s: State): (v: Image)
    requires s.cut <= |s.journal|
  {
    Replay(c.init, s.journal[..s.cut])
  }

  // The reservation that begin_op makes.

  function Unspent(m: nat, ops: seq<Active>): (r: int)
  {
    if ops == [] then 0 else m - |ops[0].spent| + Unspent(m, ops[1..])
  }

  lemma {:induction false} UnspentConcat(m: nat, a: seq<Active>, b: seq<Active>)
    ensures Unspent(m, a + b) == Unspent(m, a) + Unspent(m, b)
  {
    if a == [] {
      assert a + b == b;
    } else {
      assert (a + b)[1..] == a[1..] + b;
      UnspentConcat(m, a[1..], b);
    }
  }

  lemma UnspentSplit(m: nat, ops: seq<Active>, i: nat)
    requires i < |ops|
    ensures Unspent(m, ops) == Unspent(m, ops[..i]) + (m - |ops[i].spent|) + Unspent(m, ops[i + 1..])
  {
    assert ops == ops[..i] + ([ops[i]] + ops[i + 1..]);
    UnspentConcat(m, ops[..i], [ops[i]] + ops[i + 1..]);
    UnspentConcat(m, [ops[i]], ops[i + 1..]);
  }

  lemma {:induction false} UnspentBound(m: nat, ops: seq<Active>)
    requires forall i :: 0 <= i < |ops| ==> |ops[i].spent| <= m
    ensures 0 <= Unspent(m, ops) <= m * |ops|
  {
    if ops != [] {
      UnspentBound(m, ops[1..]);
    }
  }

  // What every run keeps, whatever the size of the log.

  /** What the listed blocks and the unspent budgets can still come to. begin_op admits a call only
      beside another one while at most MAXOPBLOCKS blocks are listed, or two others while none is. */
  ghost predicate Budgeted(m: nat, s: State)
  {
    && (forall i :: 0 <= i < |s.ops| ==> |s.ops[i].spent| <= m)
    && (forall i, b :: 0 <= i < |s.ops| && b in s.ops[i].spent ==> b in s.lh)
    && |s.lh| + Unspent(m, s.ops) <= MAXOPBLOCKS + 2 * m
  }

  /** No system call has writes on both sides of the cut, or before it while still in progress. */
  ghost predicate WholeCalls(s: State)
  {
    && s.cut <= |s.journal|
    && (forall k :: 0 <= k < |s.journal| ==> s.journal[k].op < s.nextOp)
    && (forall i :: 0 <= i < |s.ops| ==> s.ops[i].op < s.nextOp)
    && (forall k, i :: 0 <= k < s.cut && 0 <= i < |s.ops| ==> s.journal[k].op != s.ops[i].op)
    && (forall k, j :: 0 <= k < s.cut <= j < |s.journal| ==> s.journal[k].op != s.journal[j].op)
  }

  /** The list names home blocks of the disk. */
  predicate HomeList(nlog: nat, size: nat, lh: seq<Word>)
  {
    |lh| <= LOGSIZE && forall i :: 0 <= i < |lh| ==> lh[i] < size && Home(nlog, lh[i])
  }

  /** Who may be running or asleep. */
  ghost predicate Control(s: State)
  {
    && (!s.phase.Recovering? ==> Distinct(s.lh))
    && (!s.phase.Running? && !s.phase.PanicTooBig? ==> s.ops == [])
    && (s.waiting != {} && Up(s) ==> s.ops != [] || Committing(s))
    && (s.phase.Down? || s.phase.Recovering? ==> s.waiting == {})
    && !s.phase.PanicCommitting?
  }

  /** How far the phase has got with the list. */
  ghost predicate Reached(s: State)
  {
    match s.phase
    case Running => (forall b :: b in s.lh ==> b in s.cache) && (s.ops == [] ==> s.lh == [])
    case Copying(tail) => tail <= |s.lh| && 0 < |s.lh| && forall b :: b in s.lh ==> b in s.cache
    case Installing(tail) => tail <= |s.lh|
    case Recovering(tail) => tail <= |s.lh|
    case Finishing => s.lh == []
    case Down => s.lh == []
    case _ => true
  }

  ghost predicate Sane(c: Config, s: State)
  {
    && WellConfigured(c) && |s.disk| == |c.init| && Geometry(c.nlog, s.disk)
    && WholeCalls(s) && Budgeted(c.budget, s)
    && HomeList(c.nlog, |s.disk|, Header(c.nlog, s.disk))
    && |Header(c.nlog, s.disk)| <= MAXOPBLOCKS + 2 * c.budget
    && HomeList(c.nlog, |s.disk|, s.lh) && Control(s) && Reached(s)
    && (forall i :: 0 <= i < |s.ops| && s.ops[i].passed ==> c.nlog >= 2)
  }

  lemma SaneBegin(c: Config, s: State)
    requires Sane(c, s) && Enabled(c, s, Begin)
    ensures Sane(c, Next(c, s, Begin))
  {
    UnspentConcat(c.budget, s.ops, [Active(s.nextOp, {}, false)]);
    UnspentBound(c.budget, s.ops);
    BeginLeavesRoom(c.budget, |s.lh|, |s.ops|);
  }

  lemma BeginLeavesRoom(m: nat, n: nat, k: nat)
    requires m <= MAXOPBLOCKS && n + (k + 1) * MAXOPBLOCKS <= LOGSIZE && (k == 0 ==> n == 0)
    ensures n + m * k + m <= MAXOPBLOCKS + 2 * m
  {
    if k > 0 {
      assert k * (MAXOPBLOCKS - m) >= MAXOPBLOCKS - m;
    }
  }

  lemma SaneTest(c: Config, s: State, i: nat)
    requires Sane(c, s) && Enabled(c, s, Test(i))
    ensures Sane(c, Next(c, s, Test(i)))
  {
    var s' := Next(c, s, Test(i));
    if !s'.phase.PanicTooBig? {
      UnspentSplit(c.budget, s.ops, i);
      UnspentSplit(c.budget, s'.ops, i);
      assert s'.ops[..i] == s.ops[..i] && s'.ops[i + 1..] == s.ops[i + 1..];
    }
  }

  lemma SaneRecord(c: Config, s: State, i: nat, b: Word, data: Block)
    requires Sane(c, s) && Enabled(c, s, Record(i, b, data))
    ensures Sane(c, Next(c, s, Record(i, b, data)))
  {
    var s' := Next(c, s, Record(i, b, data));
    RecordBudget(c.budget, s, s', i, b);
    RecordKeepsWhole(s, s', i, Write(s.ops[i].op, b, data));
    UnspentBound(c.budget, s'.ops);
  }

  lemma RecordKeepsWhole(s: State, s': State, i: nat, w: Write)
    requires WholeCalls(s) && i < |s.ops| && w.op == s.ops[i].op
    requires s'.journal == s.journal + [w] && s'.cut == s.cut && s'.nextOp == s.nextOp
    requires |s'.ops| == |s.ops| && forall j :: 0 <= j < |s.ops| ==> s'.ops[j].op == s.ops[j].op
    ensures WholeCalls(s')
  {
  }

  lemma RecordBudget(m: nat, s: State, s': State, i: nat, b: Word)
    requires Budgeted(m, s) && i < |s.ops|
    requires b in s.ops[i].spent || |s.ops[i].spent| < m
    requires s'.lh == Recorded(s.lh, b)
    requires s'.ops == s.ops[i := Active(s.ops[i].op, s.ops[i].spent + {b}, false)]
    ensures Budgeted(m, s')
  {
    UnspentSplit(m, s.ops, i);
    UnspentSplit(m, s'.ops, i);
    assert s'.ops[..i] == s.ops[..i] && s'.ops[i + 1..] == s.ops[i + 1..];
    if b in s.ops[i].spent {
      assert s.ops[i].spent + {b} == s.ops[i].spent;
    }
  }

  lemma SaneEnd(c: Config, s: State, i: nat)
    requires Sane(c, s) && Enabled(c, s, End(i))
    ensures Sane(c, Next(c, s, End(i)))
  {
    EndKeepsOps(c.budget, s, Next(c, s, End(i)), i);
  }

  /** Dropping a system call from the outstanding ones gives its reservation back. */
  lemma EndKeepsOps(m: nat, s: State, s': State, i: nat)
    requires WholeCalls(s) && Budgeted(m, s) && i < |s.ops|
    requires s'.ops == s.ops[..i] + s.ops[i + 1..]
    requires s'.lh == s.lh && s'.journal == s.journal && s'.cut == s.cut && s'.nextOp == s.nextOp
    ensures WholeCalls(s') && Budgeted(m, s')
    ensures forall j :: 0 <= j < |s'.ops| ==> s'.ops[j] == s.ops[if j < i then j else j + 1]
  {
    UnspentSplit(m, s.ops, i);
    UnspentConcat(m, s.ops[..i], s.ops[i + 1..]);
    assert |s.ops[i].spent| <= m;
    assert forall j :: 0 <= j < |s'.ops| ==> s'.ops[j] == s.ops[if j < i then j else j + 1];
  }

  /** The steps of a commit, a crash and a recovery. */
  lemma SaneDisk(c: Config, s: State, e: Event)
    requires Sane(c, s) && Enabled(c, s, e) && !e.Begin? && !e.Test? && !e.Record? && !e.End?
    ensures Sane(c, Next(c, s, e))
  {
    var s' := Next(c, s, e);
    if e.WriteHeader? {
      assert Header(c.nlog, s'.disk) == s.lh;
    }
    if e.EraseHeader? || e.RedoErase? {
      assert Header(c.nlog, s'.disk) == [];
    }
  }

  lemma SaneStep(c: Config, s: State, e: Event)
    requires Sane(c, s) && Enabled(c, s, e)
    ensures Sane(c, Next(c, s, e))
  {
    match e
    case Begin => SaneBegin(c, s);
    case Test(i) => SaneTest(c, s, i);
    case Record(i, b, data) => SaneRecord(c, s, i, b, data);
    case End(i) => SaneEnd(c, s, i);
    case _ => SaneDisk(c, s, e);
  }

  lemma {:induction false} SaneRun(c: Config, run: seq<State>, k: nat)
    requires IsRun(c, run) && k < |run|
    ensures Sane(c, run[k])
  {
    if k > 0 {
      SaneRun(c, run, k - 1);
      assert Step(c, run[k - 1], run[k - 1 + 1]);
      var e :| Enabled(c, run[k - 1], e) && run[k] == Next(c, run[k - 1], e);
      SaneStep(c, run[k - 1], e);
    }
  }

  // What a run that never lists more blocks than the log has keeps besides.

  /** Up to its k-th state the run has listed no more blocks than the log has data blocks. */
  ghost predicate Within(c: Config, run: seq<State>, k: nat)
    requires k < |run|
  {
    forall i :: 0 <= i <= k ==> |run[i].lh| < c.nlog
  }

  /** The pinned buffers hold the logical contents of exactly the listed blocks. */
  ghost predicate Pending(c: Config, s: State)
  {
    && s.cut <= |s.journal|
    && Geometry(c.nlog, s.disk) && Header(c.nlog, s.disk) == []
    && (forall b :: b in s.cache <==> b in s.lh)
    && (forall b :: b in s.lh ==> b < |c.init| && s.cache[b] == Replay(c.init, s.journal)[b])
    && (forall b {:trigger Home(c.nlog, b)} :: 0 <= b < |c.init| && Home(c.nlog, b) && b !in s.lh ==>
          Replay(c.init, s.journal)[b] == Durable(c, s)[b])
    && (s.lh == [] ==> s.cut == |s.journal|)
  }

  /** What the memory and the log hold in each phase. */
  ghost predicate Staged(c: Config, s: State)
  {
    match s.phase
    case Running => Pending(c, s) && (s.ops == [] ==> s.lh == [])
    case Copying(tail) =>
      && Pending(c, s) && 0 < |s.lh| && tail <= |s.lh| && START + 1 + |s.lh| <= |s.disk|
      && forall i :: 0 <= i < tail ==> s.lh[i] in s.cache && s.disk[START + 1 + i] == s.cache[s.lh[i]]
    case Installing(tail) =>
      && Redone(c, s, tail)
      && (forall b :: b in s.cache ==> b in s.lh)
      && (forall i :: 0 <= i < tail ==> s.lh[i] !in s.cache)
    case Recovering(tail) => Redone(c, s, tail) && s.cache == map[]
    case Finishing => Pending(c, s) && s.lh == []
    case Down => s.lh == [] && s.cut == |s.journal| && s.cache == map[]
    case _ => true
  }

  ghost predicate Inv(c: Config, s: State)
  {
    && Sane(c, s) && |s.lh| < c.nlog && |Header(c.nlog, s.disk)| < c.nlog
    && RecoversTo(c.nlog, s.disk, Durable(c, s)) && Staged(c, s)
  }

  /** Installation from the header on disk, with its first `tail` blocks home. */
  ghost predicate Redone(c: Config, s: State, tail: nat)
  {
    && s.cut == |s.journal| && tail <= |s.lh|
    && Geometry(c.nlog, s.disk) && |s.disk| == |c.init| && ValidList(c.nlog, |s.disk|, s.lh)
    && Header(c.nlog, s.disk) == s.lh
    && forall i :: 0 <= i < tail ==> s.disk[s.lh[i]] == Durable(c, s)[s.lh[i]]
  }

  lemma InvInit(c: Config, s: State)
    requires Init(c, s)
    ensures Inv(c, s)
  {
  }

  lemma InvRecord(c: Config, s: State, i: nat, b: Word, data: Block)
    requires Inv(c, s) && Enabled(c, s, Record(i, b, data)) && |Recorded(s.lh, b)| < c.nlog
    ensures Inv(c, Next(c, s, Record(i, b, data)))
  {
    var s' := Next(c, s, Record(i, b, data));
    SaneRecord(c, s, i, b, data);
    UnspentBound(c.budget, s'.ops);
    assert s'.journal[..s.cut] == s.journal[..s.cut];
    assert s.ops != [] ==> s.phase.Running?;
    RecordKeepsPending(c, s, s', Write(s.ops[i].op, b, data));
  }

  lemma RecordKeepsPending(c: Config, s: State, s': State, w: Write)
    requires Pending(c, s) && w.blockno < |c.init|
    requires s'.disk == s.disk && s'.cut == s.cut && s'.journal == s.journal + [w]
    requires s'.lh == Recorded(s.lh, w.blockno) && s'.cache == s.cache[w.blockno := w.data]
    ensures Pending(c, s')
  {
    assert s'.journal[..|s.journal|] == s.journal && s'.journal[..s.cut] == s.journal[..s.cut];
    assert Replay(c.init, s'.journal) == Replay(c.init, s.journal)[w.blockno := w.data];
  }

  lemma InvCopyBlock(c: Config, s: State)
    requires Inv(c, s) && Enabled(c, s, CopyBlock)
    ensures Inv(c, Next(c, s, CopyBlock))
  {
    SaneStep(c, s, CopyBlock);
  }

  lemma InvWriteHeader(c: Config, s: State)
    requires Inv(c, s) && Enabled(c, s, WriteHeader)
    ensures Inv(c, Next(c, s, WriteHeader))
  {
    SaneStep(c, s, WriteHeader);
    var s' := Next(c, s, WriteHeader);
    assert s.journal[..|s.journal|] == s.journal;
    assert forall i :: 0 <= i < |s.lh| ==> s.lh[i] in s.lh;
    assert Redo(c.nlog, s'.disk, s.lh, Durable(c, s'));
  }

  lemma InvInstallBlock(c: Config, s: State)
    requires Inv(c, s) && Enabled(c, s, InstallBlock)
    ensures Inv(c, Next(c, s, InstallBlock))
  {
    var s' := Next(c, s, InstallBlock);
    assert Sane(c, s') by {
      SaneStep(c, s, InstallBlock);
    }
    InstallKeepsRedone(c, s, s', s.phase.tail);
    InstallKeepsCache(c, s, s', s.phase.tail);
  }

  lemma InstallKeepsCache(c: Config, s: State, s': State, tail: nat)
    requires s.phase == Installing(tail) && Staged(c, s) && tail < |s.lh| && Redone(c, s', tail + 1)
    requires s'.phase == Installing(tail + 1) && s'.lh == s.lh && s'.cache == s.cache - {s.lh[tail]}
    ensures Staged(c, s')
  {
  }

  lemma InvRedoBlock(c: Config, s: State)
    requires Inv(c, s) && Enabled(c, s, RedoBlock)
    ensures Inv(c, Next(c, s, RedoBlock))
  {
    SaneStep(c, s, RedoBlock);
    InstallKeepsRedone(c, s, Next(c, s, RedoBlock), s.phase.tail);
  }

  lemma InstallKeepsRedone(c: Config, s: State, s': State, tail: nat)
    requires Redone(c, s, tail) && RecoversTo(c.nlog, s.disk, Durable(c, s)) && tail < |s.lh|
    requires s'.disk == s.disk[s.lh[tail] := s.disk[START + 1 + tail]]
    requires s'.lh == s.lh && s'.journal == s.journal && s'.cut == s.cut
    ensures Redone(c, s', tail + 1) && RecoversTo(c.nlog, s'.disk, Durable(c, s'))
  {
    InstallKeepsRedo(c.nlog, s.disk, s.lh, Durable(c, s), tail);
    assert s.disk[START + 1 + tail] == Durable(c, s)[s.lh[tail]];
  }

  lemma InvErase(c: Config, s: State, e: Event)
    requires Inv(c, s) && Enabled(c, s, e) && (e.EraseHeader? || e.RedoErase?)
    ensures Inv(c, Next(c, s, e))
  {
    SaneStep(c, s, e);
    AllInstalled(c.nlog, s.disk, s.lh, Durable(c, s));
    var s' := Next(c, s, e);
    assert s.journal[..s.cut] == s.journal;
    assert Header(c.nlog, s'.disk) == [];
  }

  lemma InvCrash(c: Config, s: State)
    requires Inv(c, s)
    ensures Inv(c, Next(c, s, Crash))
  {
    SaneStep(c, s, Crash);
    var s' := Next(c, s, Crash);
    assert s'.journal[..s'.cut] == s.journal[..s.cut];
  }

  /** The steps that change neither the list nor the disk nor the journal. */
  lemma InvCall(c: Config, s: State, e: Event)
    requires Inv(c, s) && Enabled(c, s, e) && (e.Begin? || e.Test? || e.End?)
    ensures Inv(c, Next(c, s, e))
  {
    SaneStep(c, s, e);
  }

  lemma InvQuiet(c: Config, s: State, e: Event)
    requires Inv(c, s) && Enabled(c, s, e) && (e.Sleep? || e.Finish? || e.Boot?)
    ensures Inv(c, Next(c, s, e))
  {
    SaneStep(c, s, e);
  }

  lemma InvStep(c: Config, s: State, e: Event)
    requires Inv(c, s) && Enabled(c, s, e) && |Next(c, s, e).lh| < c.nlog
    ensures Inv(c, Next(c, s, e))
  {
    match e
    case Record(i, b, data) => InvRecord(c, s, i, b, data);
    case CopyBlock => InvCopyBlock(c, s);
    case WriteHeader => InvWriteHeader(c, s);
    case InstallBlock => InvInstallBlock(c, s);
    case RedoBlock => InvRedoBlock(c, s);
    case EraseHeader => InvErase(c, s, e);
    case RedoErase => InvErase(c, s, e);
    case Crash => InvCrash(c, s);
    case Sleep(_) => InvQuiet(c, s, e);
    case Finish => InvQuiet(c, s, e);
    case Boot => InvQuiet(c, s, e);
    case _ => InvCall(c, s, e);
  }

  lemma {:induction false} InvRun(c: Config, run: seq<State>, k: nat)
    requires IsRun(c, run) && k < |run| && Within(c, run, k)
    ensures Inv(c, run[k])
  {
    if k == 0 {
      InvInit(c, run[0]);
    } else {
      InvRun(c, run, k - 1);
      assert Step(c, run[k - 1], run[k - 1 + 1]);
      var e :| Enabled(c, run[k - 1], e) && run[k] == Next(c, run[k - 1], e);
      InvStep(c, run[k - 1], e);
    }
  }

  // Which runs those are.

  /** The blocks that calls can come to list fit in the log's data blocks, or the log has none and
      log_write panics. */
  predicate Fits(c: Config)
  {
    c.nlog == 1 || MAXOPBLOCKS + 2 * c.budget < c.nlog
  }

  /** The list in memory and the one on disk have at most n blocks. */
  predicate ListsAtMost(c: Config, s: State, n: int)
    requires Geometry(c.nlog, s.disk)
  {
    |s.lh| <= n && |Header(c.nlog, s.disk)| <= n
  }

  lemma FitsStep(c: Config, s: State, e: Event)
    requires Sane(c, s) && Fits(c) && Enabled(c, s, e) && ListsAtMost(c, s, c.nlog - 1)
    ensures Geometry(c.nlog, Next(c, s, e).disk) && ListsAtMost(c, Next(c, s, e), c.nlog - 1)
  {
    SaneStep(c, s, e);
    UnspentBound(c.budget, Next(c, s, e).ops);
  }

  lemma {:induction false} FitsLists(c: Config, run: seq<State>, k: nat)
    requires IsRun(c, run) && k < |run| && Fits(c)
    ensures Sane(c, run[k]) && ListsAtMost(c, run[k], c.nlog - 1)
  {
    SaneRun(c, run, k);
    if k > 0 {
      FitsLists(c, run, k - 1);
      assert Step(c, run[k - 1], run[k - 1 + 1]);
      var e :| Enabled(c, run[k - 1], e) && run[k] == Next(c, run[k - 1], e);
      FitsStep(c, run[k - 1], e);
    }
  }

  /** In a log large enough, every run. */
  lemma FitsWithin(c: Config, run: seq<State>, k: nat)
    requires IsRun(c, run) && k < |run| && Fits(c)
    ensures Within(c, run, k)
  {
    forall i | 0 <= i <= k
      ensures |run[i].lh| < c.nlog
    {
      FitsLists(c, run, i);
    }
  }

  /** With one call at a time, the list is of blocks that the call in progress, or being committed, has logged. */
  predicate Alone(c: Config, s: State)
    requires Geometry(c.nlog, s.disk)
  {
    && |s.ops| <= 1 && ListsAtMost(c, s, c.budget)
    && (s.phase.Running? && |s.ops| == 1 ==> |s.lh| <= |s.ops[0].spent|)
  }

  lemma AloneStep(c: Config, s: State, e: Event)
    requires Sane(c, s) && Alone(c, s) && Enabled(c, s, e) && |Next(c, s, e).ops| <= 1
    ensures Geometry(c.nlog, Next(c, s, e).disk) && Alone(c, Next(c, s, e))
  {
    SaneStep(c, s, e);
    if e.Record? && e.b in s.ops[e.i].spent {
      assert s.ops[e.i].spent + {e.b} == s.ops[e.i].spent;
    }
  }

  lemma {:induction false} AloneLists(c: Config, run: seq<State>, k: nat)
    requires IsRun(c, run) && k < |run| && forall i :: 0 <= i <= k ==> |run[i].ops| <= 1
    ensures Sane(c, run[k]) && Alone(c, run[k])
  {
    SaneRun(c, run, k);
    if k > 0 {
      AloneLists(c, run, k - 1);
      assert Step(c, run[k - 1], run[k - 1 + 1]);
      var e :| Enabled(c, run[k - 1], e) && run[k] == Next(c, run[k - 1], e);
      AloneStep(c, run[k - 1], e);
    }
  }

  /** In a log with more blocks than one call may log, every run in which calls do not overlap. */
  lemma AloneWithin(c: Config, run: seq<State>, k: nat)
    requires IsRun(c, run) && k < |run| && c.budget < c.nlog && forall i :: 0 <= i <= k ==> |run[i].ops| <= 1
    ensures Within(c, run, k)
  {
    forall i | 0 <= i <= k
      ensures |run[i].lh| < c.nlog
    {
      AloneLists(c, run, i);
    }
  }

  // What holds in every run.

  /** Recovery from the disk rebuilds exactly the writes of the committed transactions. */
  ghost predicate Recoverable(c: Config, s: State)
  {
    s.cut <= |s.journal| && RecoversTo(c.nlog, s.disk, Replay(c.init, s.journal[..s.cut]))
  }

  /** If the list has stayed within the log, then whenever the machine stops, recovery rebuilds exactly the
      writes of the committed transactions, and those are the writes of whole system calls: none of an
      unfinished one, all of every other. */
  lemma CrashAtomicity(c: Config, run: seq<State>, k: nat)
    requires IsRun(c, run) && k < |run| && Within(c, run, k)
    ensures Recoverable(c, run[k]) && WholeCalls(run[k])
    ensures run[k].phase.Running? && run[k].ops == [] ==> run[k].cut == |run[k].journal|
  {
    InvRun(c, run, k);
  }

  /** A committed write is never lost, through any number of crashes and interrupted recoveries. */
  lemma {:induction false} CommittedIsKept(c: Config, run: seq<State>, i: nat, j: nat)
    requires IsRun(c, run) && i <= j < |run|
    ensures run[i].cut <= |run[i].journal| && run[j].cut <= |run[j].journal|
    ensures run[i].journal[..run[i].cut] <= run[j].journal[..run[j].cut]
    decreases j - i
  {
    assert run[j].cut <= |run[j].journal| by {
      SaneRun(c, run, j);
    }
    if i < j {
      CommittedIsKept(c, run, i, j - 1);
      assert Step(c, run[j - 1], run[j - 1 + 1]);
      var e :| Enabled(c, run[j - 1], e) && run[j] == Next(c, run[j - 1], e);
      StepKeepsCommitted(c, run[j - 1], e);
    }
  }

  lemma StepKeepsCommitted(c: Config, s: State, e: Event)
    requires s.cut <= |s.journal| && Enabled(c, s, e)
    ensures var s' := Next(c, s, e); s'.cut <= |s'.journal| && s.journal[..s.cut] <= s'.journal[..s'.cut]
  {
  }

  /** The space the listed blocks and the unspent reservations need never exceeds LOGSIZE; blocks are
      listed once; calls are outstanding only while no commit is under way, so no log_write overlaps a
      commit; and a process asleep in begin_op has a call or a commit due to wake it. */
  lemma ReservationHolds(c: Config, run: seq<State>, k: nat)
    requires IsRun(c, run) && k < |run|
    ensures var s := run[k]; 0 <= |s.lh| + Unspent(c.budget, s.ops) <= MAXOPBLOCKS + 2 * c.budget <= LOGSIZE
    ensures var s := run[k]; !s.phase.Recovering? ==> Distinct(s.lh)
    ensures var s := run[k]; s.ops != [] ==> !Committing(s)
    ensures var s := run[k]; s.phase.Running? && s.ops == [] ==> s.lh == [] && !NoRoom(s)
    ensures var s := run[k]; s.waiting != {} && Up(s) ==> s.ops != [] || Committing(s)
    ensures WholeCalls(run[k])
  {
    SaneRun(c, run, k);
    UnspentBound(c.budget, run[k].ops);
  }

  predicate DiskEvent(e: Event)
  {
    e.CopyBlock? || e.WriteHeader? || e.InstallBlock? || e.EraseHeader? || e.Finish? || e.RedoBlock? || e.RedoErase?
  }

  /** A commit or recovery under way always has a next step: it cannot get stuck, unless it is driven
      past the end of the disk by a list longer than the log. */
  lemma CommitAdvances(c: Config, run: seq<State>, k: nat)
    requires IsRun(c, run) && k < |run| && (Within(c, run, k) || START + LOGSIZE < |c.init|)
    requires Committing(run[k]) || run[k].phase.Recovering?
    ensures exists e :: Enabled(c, run[k], e) && DiskEvent(e)
  {
    SaneRun(c, run, k);
    if Within(c, run, k) {
      InvRun(c, run, k);
    }
    var s := run[k];
    match s.phase
    case Copying(tail) =>
      if tail < |s.lh| {
        assert s.lh[tail] in s.lh;
        assert Enabled(c, s, CopyBlock);
      } else {
        assert Enabled(c, s, WriteHeader);
      }
    case Installing(tail) => assert Enabled(c, s, if tail < |s.lh| then InstallBlock else EraseHeader);
    case Recovering(tail) => assert Enabled(c, s, if tail < |s.lh| then RedoBlock else RedoErase);
    case Finishing => assert Enabled(c, s, Finish);
  }

  // When the "too big a transaction" panic can happen.

  ghost predicate CanPanic(c: Config)
  {
    exists run: seq<State>, k: nat :: IsRun(c, run) && k < |run| && run[k].phase.PanicTooBig?
  }

  /** The most blocks that may be listed when log_write tests. */
  function Limit(c: Config): (g: int)
  {
    if c.nlog - 1 < LOGSIZE then c.nlog - 1 else LOGSIZE
  }

  /** begin_op's reservation does not keep log_write's guard from firing: the guard is one block
      tighter than the reservation, and it also refuses a block already listed. Calls that keep to a
      budget of m blocks can meet the panic exactly when MAXOPBLOCKS + 2m reaches the limit: for the
      log mkfs makes (nlog == LOGSIZE), and for any longer one, exactly when m == MAXOPBLOCKS. */
  lemma PanicExactly(c: Config)
    requires WellConfigured(c) && Roomy(c)
    ensures CanPanic(c) <==> MAXOPBLOCKS + 2 * c.budget >= Limit(c)
    ensures c.nlog >= LOGSIZE ==> (CanPanic(c) <==> c.budget == MAXOPBLOCKS)
  {
    if MAXOPBLOCKS + 2 * c.budget >= Limit(c) {
      var run := FillLog(c, Limit(c), 0, []);
      var run' := Extend(c, run, Test(0));
      assert run'[|run|].phase.PanicTooBig?;
    } else if CanPanic(c) {
      var run: seq<State>, k: nat :| IsRun(c, run) && k < |run| && run[k].phase.PanicTooBig?;
      NoPanicBelowLimit(c, run, k);
    }
  }

  lemma {:induction false} NoPanicBelowLimit(c: Config, run: seq<State>, k: nat)
    requires IsRun(c, run) && k < |run| && MAXOPBLOCKS + 2 * c.budget < Limit(c)
    ensures !run[k].phase.PanicTooBig?
  {
    if k > 0 {
      NoPanicBelowLimit(c, run, k - 1);
      ListedWithinReservation(c, run, k - 1);
      assert Step(c, run[k - 1], run[k - 1 + 1]);
      var e :| Enabled(c, run[k - 1], e) && run[k] == Next(c, run[k - 1], e);
      StepBelowLimit(c, run[k - 1], e);
    }
  }

  lemma StepBelowLimit(c: Config, s: State, e: Event)
    requires Enabled(c, s, e) && !s.phase.PanicTooBig? && |s.lh| < Limit(c)
    ensures !Next(c, s, e).phase.PanicTooBig?
  {
  }

  lemma ListedWithinReservation(c: Config, run: seq<State>, k: nat)
    requires IsRun(c, run) && k < |run|
    ensures |run[k].lh| <= MAXOPBLOCKS + 2 * c.budget
  {
    SaneRun(c, run, k);
    UnspentBound(c.budget, run[k].ops);
  }

  // Runs that fill the log: one call stays open while others list MAXOPBLOCKS blocks, then it and one
  // more list the rest.

  /** The disk has blocks past the log for a run to list. */
  predicate Roomy(c: Config)
  {
    |c.init| > START + c.nlog + LOGSIZE + 1
  }

  /** Block START+nlog, just past the log, is not among the blocks listed. */
  function Fresh(c: Config, j: int): (b: int)
  {
    START + c.nlog + 1 + j
  }

  /** A write of data to one of Fresh(0) .. Fresh(j). */
  predicate Filled(c: Config, w: Write, j: nat)
  {
    Fresh(c, 0) <= w.blockno < Fresh(c, j)
  }

  /** The state a filling run has reached: nothing is committed, no log_write is under way, and exactly
      j of the blocks Fresh(0) .. Fresh(j) are listed, all with the same data. */
  ghost predicate Filling(c: Config, s: State, j: nat, data: Block)
  {
    && s.phase.Running? && |s.lh| == j && s.disk == c.init && s.cut == 0
    && (forall b :: b in s.lh ==> Fresh(c, 0) <= b < Fresh(c, j) && b in s.cache && s.cache[b] == data)
    && (forall k :: 0 <= k < |s.journal| ==> Filled(c, s.journal[k], j))
  }

  ghost predicate EndsWith(c: Config, run: seq<State>, j: nat, data: Block)
  {
    IsRun(c, run) && Filling(c, Last(run), j, data)
  }

  function Last(run: seq<State>): (s: State)
    requires |run| > 0
  {
    run[|run| - 1]
  }

  lemma Extend(c: Config, run: seq<State>, e: Event) returns (run': seq<State>)
    requires IsRun(c, run) && Enabled(c, Last(run), e)
    ensures run' == run + [Next(c, Last(run), e)] && IsRun(c, run')
  {
    run' := run + [Next(c, Last(run), e)];
    assert Step(c, Last(run), run'[|run|]);
    assert forall i :: 0 <= i < |run'| - 1 ==> Step(c, run'[i], run'[i + 1]) by {
      forall i | 0 <= i < |run'| - 1
        ensures Step(c, run'[i], run'[i + 1])
      {
        if i < |run| - 1 {
          assert Step(c, run[i], run[i + 1]);
        }
      }
    }
  }

  predicate SameOthers(a: seq<Active>, b: seq<Active>, i: nat)
  {
    |a| == |b| && forall x :: 0 <= x < |a| && x != i ==> a[x] == b[x]
  }

  /** Call number i, past its test, records the next new block. */
  lemma RecordNext(c: Config, run: seq<State>, j: nat, i: nat, data: Block) returns (run': seq<State>)
    requires EndsWith(c, run, j, data) && Fresh(c, j) < |c.init|
    requires i < |Last(run).ops| && Last(run).ops[i].passed && |Last(run).ops[i].spent| < c.budget
    requires Last(run).ops[i].spent <= set b | b in Last(run).lh
    ensures EndsWith(c, run', j + 1, data)
    ensures SameOthers(Last(run').ops, Last(run).ops, i) && !Last(run').ops[i].passed
    ensures |Last(run').ops[i].spent| == |Last(run).ops[i].spent| + 1
    ensures Last(run').ops[i].spent <= set b | b in Last(run').lh
    ensures forall b :: b in Last(run).lh ==> b in Last(run').lh
  {
    run' := Extend(c, run, Record(i, Fresh(c, j), data));
    assert Fresh(c, j) !in Last(run).lh;
  }

  /** Call number i logs `count` new blocks. */
  lemma {:induction false} LogMany(c: Config, run: seq<State>, j: nat, i: nat, count: nat, data: Block)
    returns (run': seq<State>)
    requires EndsWith(c, run, j, data) && j + count <= Limit(c) && Roomy(c)
    requires i < |Last(run).ops| && !Last(run).ops[i].passed && |Last(run).ops[i].spent| + count <= c.budget
    requires Last(run).ops[i].spent <= set b | b in Last(run).lh
    ensures EndsWith(c, run', j + count, data)
    ensures SameOthers(Last(run').ops, Last(run).ops, i) && !Last(run').ops[i].passed
    ensures |Last(run').ops[i].spent| == |Last(run).ops[i].spent| + count
    ensures Last(run').ops[i].spent <= set b | b in Last(run').lh
    ensures forall b :: b in Last(run).lh ==> b in Last(run').lh
    decreases count
  {
    if count == 0 {
      run' := run;
    } else {
      var tested := Extend(c, run, Test(i));
      var mid := RecordNext(c, tested, j, i, data);
      run' := LogMany(c, mid, j + 1, i, count - 1, data);
    }
  }

  /** While the first call stays open, a second one begins, lists one block, and ends. */
  lemma {:induction false} FillFirst(c: Config, j: nat, data: Block) returns (run: seq<State>)
    requires WellConfigured(c) && j <= MAXOPBLOCKS && j <= Limit(c) && Roomy(c)
    ensures EndsWith(c, run, j, data)
    ensures |Last(run).ops| == 1 && Last(run).ops[0].spent == {} && !Last(run).ops[0].passed
    decreases j
  {
    if j == 0 {
      run := [State(c.init, Running, [], map[], [], {}, 0, [], 0)];
      run := Extend(c, run, Begin);
    } else {
      run := FillFirst(c, j - 1, data);
      run := Extend(c, run, Begin);
      run := LogMany(c, run, j - 1, 1, 1, data);
      var s := Last(run);
      run := Extend(c, run, End(1));
      assert s.ops[..1] + s.ops[1 + 1..] == [s.ops[0]];
    }
  }

  /** A second call begins beside the first. */
  lemma FillSecond(c: Config, j: nat, data: Block) returns (run: seq<State>)
    requires WellConfigured(c) && j <= MAXOPBLOCKS && j <= Limit(c) && Roomy(c)
    ensures EndsWith(c, run, j, data) && |Last(run).ops| == 2
    ensures forall i :: 0 <= i < 2 ==> Last(run).ops[i].spent == {} && !Last(run).ops[i].passed
  {
    run := FillFirst(c, j, data);
    run := Extend(c, run, Begin);
  }

  /** A run that lists g blocks and leaves two calls open, each with `spare` blocks of its budget left. */
  lemma FillLog(c: Config, g: nat, spare: nat, data: Block) returns (run: seq<State>)
    requires WellConfigured(c) && Roomy(c) && spare <= c.budget
    requires g <= Limit(c) && g <= MAXOPBLOCKS + 2 * (c.budget - spare)
    ensures EndsWith(c, run, g, data) && |Last(run).ops| == 2
    ensures forall i :: 0 <= i < 2 ==> !Last(run).ops[i].passed && |Last(run).ops[i].spent| <= c.budget - spare
    ensures forall i :: 0 <= i < 2 ==> Last(run).ops[i].spent <= set b | b in Last(run).lh
  {
    var m := c.budget - spare;
    var first := if g <= MAXOPBLOCKS then g else MAXOPBLOCKS;
    run := FillSecond(c, first, data);
    var rest := g - first;
    var x := if rest <= m then rest else m;
    run := LogMany(c, run, first, 1, x, data);
    run := LogMany(c, run, first + x, 0, rest - x, data);
  }

  // When a crash can tear the disk.

  /** The disk is none of the images that the writes made so far, taken in order, give. */
  ghost predicate Torn(c: Config, s: State)
  {
    forall k :: 0 <= k <= |s.journal| ==> !RecoversTo(c.nlog, s.disk, Replay(c.init, s.journal[..k]))
  }

  /** Crashes leave the disk recoverable in every run if and only if the log is large enough. */
  lemma AtomicExactly(c: Config)
    requires WellConfigured(c) && Roomy(c)
    ensures (forall run, k :: IsRun(c, run) && 0 <= k < |run| ==> Recoverable(c, run[k])) <==> Fits(c)
    ensures c.nlog == LOGSIZE ==> (Fits(c) <==> c.budget < MAXOPBLOCKS)
  {
    if Fits(c) {
      forall run, k | IsRun(c, run) && 0 <= k < |run|
        ensures Recoverable(c, run[k])
      {
        FitsWithin(c, run, k);
        CrashAtomicity(c, run, k);
      }
    } else {
      var run := TearDisk(c);
      assert !Recoverable(c, run[|run| - 1]);
    }
  }

  /** Two calls test the log while it has room for one block, and both record one: the list is as long
      as the whole log. */
  lemma ListTooMany(c: Config, data: Block) returns (run: seq<State>)
    requires WellConfigured(c) && Roomy(c) && !Fits(c)
    ensures EndsWith(c, run, c.nlog, data) && |Last(run).ops| == 2
    ensures !Last(run).ops[0].passed && !Last(run).ops[1].passed
  {
    run := FillLog(c, c.nlog - 2, 1, data);
    run := Extend(c, run, Test(0));
    run := Extend(c, run, Test(1));
    run := RecordNext(c, run, c.nlog - 2, 0, data);
    run := RecordNext(c, run, c.nlog - 1, 1, data);
  }

  /** write_log has copied `tail` blocks of a list of nlog. */
  ghost predicate CopyingPast(c: Config, s: State, tail: nat, data: Block)
  {
    && s.phase == Copying(tail) && |s.lh| == c.nlog && s.cut == 0
    && |s.disk| == |c.init| > START && s.disk[START] == c.init[START]
    && (forall b :: b in s.lh ==> b in s.cache && s.cache[b] == data)
    && (forall k :: 0 <= k < |s.journal| ==> Filled(c, s.journal[k], c.nlog))
  }

  lemma {:induction false} CopyMany(c: Config, run: seq<State>, tail: nat, data: Block) returns (run': seq<State>)
    requires WellConfigured(c) && Roomy(c) && !Fits(c) && tail < c.nlog
    requires IsRun(c, run) && CopyingPast(c, Last(run), tail, data)
    ensures IsRun(c, run') && CopyingPast(c, Last(run'), c.nlog, data) && Last(run').disk[START + c.nlog] == data
    decreases c.nlog - tail
  {
    var s := Last(run);
    assert s.lh[tail] in s.lh;
    run' := Extend(c, run, CopyBlock);
    if tail + 1 < c.nlog {
      run' := CopyMany(c, run', tail + 1, data);
    }
  }

  /** In a log too small, a run whose write_log, with nothing yet committed, has overwritten the first block
      past the log, which no call wrote: if the machine stops there, recovery gives neither the old
      state nor the new one, nor any between. */
  lemma TearDisk(c: Config) returns (run: seq<State>)
    requires WellConfigured(c) && Roomy(c) && !Fits(c)
    ensures IsRun(c, run) && Last(run).phase.Copying? && Last(run).cut == 0 && Torn(c, Last(run))
  {
    var data := Other(c.init[START + c.nlog]);
    run := ListTooMany(c, data);
    var s := Last(run);
    run := Extend(c, run, End(1));
    assert s.ops[..1] + s.ops[1 + 1..] == [s.ops[0]];
    run := Extend(c, run, End(0));
    run := CopyMany(c, run, 0, data);
    s := Last(run);
    assert Header(c.nlog, s.disk) == [];
    forall k | 0 <= k <= |s.journal|
      ensures !RecoversTo(c.nlog, s.disk, Replay(c.init, s.journal[..k]))
    {
      NotWritten(c, s.journal[..k]);
      assert Home(c.nlog, START + c.nlog);
    }
  }

  /** A block of words other than b. */
  function Other(b: Block): (d: Block)
    ensures d != b && |d| == WORDS
  {
    var zero := seq(WORDS, _ => 0);
    if b == zero then
      var one := seq(WORDS, _ => 1);
      assert one[0] != zero[0];
      one
    else zero
  }

  lemma {:induction false} NotWritten(c: Config, ws: seq<Write>)
    requires Roomy(c) && forall k :: 0 <= k < |ws| ==> Filled(c, ws[k], c.nlog)
    ensures Replay(c.init, ws)[START + c.nlog] == c.init[START + c.nlog]
    decreases |ws|
  {
    if ws != [] {
      NotWritten(c, ws[..|ws| - 1]);
    }
  }
}
