/** log.c one call at a time: the in-memory header, the pinned buffers, and the disk, written one block at
    a time by a commit or a recovery. What interleaved callers can do to it is in LogProtocol. */
module Log {
  import opened LogDisk
  import opened Params

  class Log {
    const nlog: nat            // log.size
    var disk: Image
    var outstanding: nat
    var committing: bool
    var n: nat                 // log.lh.n
    const block: array<Word>   // log.lh.block
    var cache: map<nat, Block> // buffers pinned with B_DIRTY, by block number
    ghost var trace: seq<Image> // the disk after each bwrite so far: the points a crash can expose

    ghost predicate Valid()
      reads this, block
    {
      && Geometry(nlog, disk)
      && block.Length == LOGSIZE && n <= LOGSIZE
      && ValidList(nlog, |disk|, block[..n])
      && Distinct(block[..n])
      && (forall b :: b in cache <==> b in block[..n])
      && Header(nlog, disk) == []
    }

    /** bread: the cached contents if the buffer is pinned, else what the disk holds. */
    function Bread(b: nat): (r: Block)
      requires b < |disk|
      reads this
    {
      if b in cache then cache[b] else disk[b]
    }

    /** The disk as the file system sees it through the cache. */
    ghost function Logical(): (v: Image)
      reads this
    {
      seq(|disk|, b requires 0 <= b < |disk| reads this => Bread(b))
    }

    constructor (nlog: nat, d: Image)
      requires Geometry(nlog, d)
      ensures this.nlog == nlog && disk == d && n == 0 && cache == map[] && outstanding == 0 && !committing
      ensures Header(nlog, d) == [] ==> Valid()
      ensures block.Length == LOGSIZE && fresh(block) && trace == []
    {
      this.nlog := nlog;
      disk := d;
      outstanding := 0;
      committing := false;
      n := 0;
      block := new Word[LOGSIZE](_ => 0);
      cache := map[];
      trace := [];
    }

    /** iderw on a dirty buffer: one block reaches the disk, and the buffer is no longer dirty. */
    method Bwrite(b: nat, data: Block)
      requires b < |disk|
      modifies this`disk, this`cache, this`trace
      ensures disk == old(disk)[b := data] && cache == old(cache) - {b}
      ensures trace == old(trace) + [disk]
    {
      disk := disk[b := data];
      cache := cache - {b};
      trace := trace + [disk];
    }

    /** One round of begin_op's loop: false if it sleeps, because a commit is under way or because the
        calls already admitted and this one might list more than LOGSIZE blocks. */
    method BeginOp() returns (ok: bool)
      requires Valid()
      modifies this`outstanding
      ensures Valid()
      ensures ok <==> !committing && n + (old(outstanding) + 1) * MAXOPBLOCKS <= LOGSIZE
      ensures outstanding == old(outstanding) + if ok then 1 else 0
    {
      if committing || n + (outstanding + 1) * MAXOPBLOCKS > LOGSIZE {
        return false;
      }
      outstanding := outstanding + 1;
      return true;
    }

    /** end_op: false where the source panics. The last call out commits: the disks a crash can expose recover
        to what the disk held, up to the header write, and from there on to what the file system sees. */
    method EndOp() returns (ok: bool)
      requires Valid() && outstanding >= 1
      modifies this`disk, this`cache, this`trace, this`n, this`outstanding, this`committing
      ensures Valid() && ok == !old(committing) && outstanding == old(outstanding) - 1 && committing == old(committing)
      ensures SameHome(nlog, Logical(), old(Logical()))
      ensures !ok || outstanding > 0 ==>
        disk == old(disk) && cache == old(cache) && n == old(n) && block[..n] == old(block[..n]) && trace == old(trace)
      ensures ok && outstanding == 0 ==> n == 0 && cache == map[] && Clean(nlog, disk, old(Logical()))
      ensures ok && outstanding == 0 ==> old(trace) <= trace && |trace| >= |old(trace)| + old(n)
      ensures ok && outstanding == 0 ==>
        && (forall k :: |old(trace)| <= k < |old(trace)| + old(n) ==> RecoversTo(nlog, trace[k], old(disk)))
        && (forall k :: |old(trace)| + old(n) <= k < |trace| ==> RecoversTo(nlog, trace[k], old(Logical())))
    {
      outstanding := outstanding - 1;
      if committing {
        return false;
      }
      if outstanding == 0 {
        committing := true;
        Commit();
        committing := false;
      }
      return true;
    }

    /** Records the block for the next commit, once however often it is written, and pins its
        contents. Returns false where the source panics. */
    method LogWrite(b: Word, data: Block) returns (ok: bool)
      requires Valid() && b < |disk| && Home(nlog, b)
      modifies this`n, this`cache, block
      ensures Valid()
      ensures ok <==> old(n) < LOGSIZE && old(n) < nlog - 1 && outstanding >= 1
      ensures !ok ==> n == old(n) && block[..n] == old(block[..n]) && cache == old(cache)
      ensures ok ==> block[..n] == Recorded(old(block[..n]), b)
      ensures ok ==> cache == old(cache)[b := data]
    {
      if n >= LOGSIZE || n >= nlog - 1 {
        return false;
      }
      if outstanding < 1 {
        return false;
      }
      ghost var list := block[..n];
      var i := 0;
      while i < n && block[i] != b
        invariant 0 <= i <= n
        invariant b !in list[..i]
      {
        i := i + 1;
      }
      assert i < n ==> list[i] == b;
      assert i == n ==> list[..i] == list;
      block[i] := b;
      if i == n {
        n := n + 1;
      }
      assert block[..n] == Recorded(list, b);
      cache := cache[b := data];
      return true;
    }

    /** Copies the pinned blocks into the log; no step of it is visible to recovery. */
    method WriteLog()
      requires Valid()
      modifies this`disk, this`cache, this`trace
      ensures Geometry(nlog, disk) && Header(nlog, disk) == [] && |disk| == |old(disk)|
      ensures cache == old(cache)
      ensures forall b {:trigger Home(nlog, b)} :: 0 <= b < |disk| && Home(nlog, b) ==> disk[b] == old(disk[b])
      ensures forall i :: 0 <= i < n ==> disk[START + 1 + i] == cache[block[i]]
      ensures |trace| == |old(trace)| + n && old(trace) <= trace
      ensures forall k :: |old(trace)| <= k < |trace| ==> RecoversTo(nlog, trace[k], old(disk))
    {
      ghost var d0 := disk;
      var tail := 0;
      while tail < n
        invariant 0 <= tail <= n && |disk| == |d0| && cache == old(cache)
        invariant disk[START] == d0[START]
        invariant forall b {:trigger Home(nlog, b)} :: 0 <= b < |disk| && Home(nlog, b) ==> disk[b] == d0[b]
        invariant forall i :: 0 <= i < tail ==> disk[START + 1 + i] == cache[block[i]]
        invariant |trace| == |old(trace)| + tail && old(trace) <= trace
        invariant forall k :: |old(trace)| <= k < |trace| ==> RecoversTo(nlog, trace[k], d0)
      {
        assert block[..n][tail] == block[tail];
        assert block[tail] in block[..n];
        Bwrite(START + tail + 1, Bread(block[tail]));
        assert cache == old(cache);
        tail := tail + 1;
      }
    }

    /** Writes the in-memory header over the header block, in one disk write. */
    method WriteHead()
      requires Geometry(nlog, disk) && START !in cache && n <= LOGSIZE <= block.Length
      modifies this`disk, this`cache, this`trace
      ensures Geometry(nlog, disk) && Header(nlog, disk) == block[..n]
      ensures |disk| == |old(disk)| && cache == old(cache)
      ensures forall b :: 0 <= b < |disk| && b != START ==> disk[b] == old(disk[b])
      ensures trace == old(trace) + [disk]
    {
      var hb := EncodeHeader(Bread(START), block[..n]);
      Bwrite(START, hb);
      assert cache == old(cache);
    }

    /** One round of install_trans: the tail-th log block is copied home. */
    method InstallOne(tail: nat, ghost lh: seq<Word>, ghost v: Image)
      requires Redo(nlog, disk, lh, v) && tail < |lh| && tail < block.Length && block[tail] == lh[tail]
      requires forall b :: b in cache ==> b in lh
      modifies this`disk, this`cache, this`trace
      ensures |disk| == |old(disk)| && disk == old(disk)[lh[tail] := v[lh[tail]]]
      ensures Redo(nlog, disk, lh, v) && disk[START] == old(disk[START])
      ensures cache == old(cache) - {lh[tail]} && trace == old(trace) + [disk]
    {
      InstallKeepsRedo(nlog, disk, lh, v, tail);
      assert !Home(nlog, START + tail + 1);
      Bwrite(block[tail], Bread(START + tail + 1));
    }

    /** Copies logged blocks home. Whatever disk state the list redoes to before the call, it redoes
        to at every step, and at the end the home blocks are that state. */
    method InstallTrans(ghost v: Image)
      requires n <= block.Length
      requires Redo(nlog, disk, block[..n], v)
      requires forall b :: b in cache ==> b in block[..n]
      modifies this`disk, this`cache, this`trace
      ensures |disk| == |old(disk)| && disk[START] == old(disk[START])
      ensures forall b {:trigger Home(nlog, b)} :: 0 <= b < |disk| && Home(nlog, b) ==> disk[b] == v[b]
      ensures cache == map[]
      ensures old(trace) <= trace && |trace| == |old(trace)| + n
      ensures forall k :: |old(trace)| <= k < |trace| ==>
        Redo(nlog, trace[k], block[..n], v) && trace[k][START] == old(disk[START])
    {
      var tail := 0;
      ghost var lh := block[..n];
      ghost var t0 := |trace|;
      while tail < n
        invariant 0 <= tail <= n && |disk| == |old(disk)|
        invariant Redo(nlog, disk, lh, v) && disk[START] == old(disk[START])
        invariant forall i :: 0 <= i < tail ==> disk[lh[i]] == v[lh[i]]
        invariant forall b :: b in cache ==> b in lh
        invariant forall i :: 0 <= i < tail ==> lh[i] !in cache
        invariant old(trace) <= trace && |trace| == t0 + tail
        invariant forall k :: t0 <= k < |trace| ==> Redo(nlog, trace[k], lh, v) && trace[k][START] == old(disk[START])
      {
        InstallOne(tail, lh, v);
        tail := tail + 1;
      }
      AllInstalled(nlog, disk, lh, v);
    }

    /** Sets n to 0 and writes the header: recovery then has nothing to redo. */
    method EraseHead(ghost v: Image)
      requires Geometry(nlog, disk) && cache == map[] && block.Length == LOGSIZE && |v| == |disk|
      requires forall b {:trigger Home(nlog, b)} :: 0 <= b < |disk| && Home(nlog, b) ==> disk[b] == v[b]
      modifies this`disk, this`cache, this`trace, this`n
      ensures Valid() && n == 0 && cache == map[]
      ensures Clean(nlog, disk, v) && RecoversTo(nlog, disk, v)
      ensures trace == old(trace) + [disk]
    {
      n := 0;
      WriteHead();
      assert Header(nlog, disk) == [];
    }

    /** Every disk the commit passes through recovers to the whole old state up to the header write
        and to the whole new state from it on; at the end the new state is home and the log empty. */
    method Commit()
      requires Valid()
      modifies this`disk, this`cache, this`trace, this`n
      ensures Valid() && n == 0 && cache == map[]
      ensures Clean(nlog, disk, old(Logical()))
      ensures old(trace) <= trace && |trace| >= |old(trace)| + old(n)
      ensures forall k :: |old(trace)| <= k < |old(trace)| + old(n) ==> RecoversTo(nlog, trace[k], old(disk))
      ensures forall k :: |old(trace)| + old(n) <= k < |trace| ==> RecoversTo(nlog, trace[k], old(Logical()))
    {
      ghost var v := Logical();
      if n > 0 {
        WriteLog();
        assert START !in block[..n];
        CommitHead(v);
        InstallTrans(v);
        EraseHead(v);
      }
    }

    /** The commit point: from this one write on, recovery yields v. */
    method CommitHead(ghost v: Image)
      requires n <= LOGSIZE <= block.Length && START !in cache && Redo(nlog, disk, block[..n], v)
      modifies this`disk, this`cache, this`trace
      ensures RecoversTo(nlog, disk, v) && Header(nlog, disk) == block[..n]
      ensures cache == old(cache) && trace == old(trace) + [disk]
    {
      WriteHead();
    }

    method ReadHead()
      requires Geometry(nlog, disk) && cache == map[] && block.Length == LOGSIZE
      modifies this`n, block
      ensures n <= LOGSIZE && block[..n] == Header(nlog, disk)
    {
      var hb := Bread(START);
      n := hb[0];
      var i := 0;
      while i < n
        invariant 0 <= i <= n == hb[0]
        invariant block[..i] == hb[1..1 + i]
      {
        block[i] := hb[1 + i];
        i := i + 1;
        assert block[..i] == hb[1..1 + i - 1] + [hb[i]];
      }
    }

    /** Recovery from any disk that recovers to v: every disk it passes through still recovers to v,
        so a crash during recovery is again such a disk, and when it completes v is home. */
    method RecoverFromLog(ghost v: Image)
      requires RecoversTo(nlog, disk, v)
      requires cache == map[] && block.Length == LOGSIZE
      modifies this`disk, this`cache, this`trace, this`n, block
      ensures Valid() && n == 0 && cache == map[]
      ensures Clean(nlog, disk, v) && RecoversTo(nlog, disk, v)
      ensures old(trace) <= trace
      ensures forall k :: |old(trace)| <= k < |trace| ==>
        RecoversTo(nlog, trace[k], v)
    {
      ReadHead();
      InstallTrans(v);
      EraseHead(v);
    }
  }
}
