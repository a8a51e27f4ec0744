/** The layers together: filewrite's transactions (module FileWrite), written through the log (module LogProtocol).
    If the machine stops anywhere in a write, recovery leaves the file with a whole number of its chunks. */
module CrashSafety {
  import opened LogDisk
  import opened LogProtocol
  import V = Volume
  import F = FileWrite

  /** How the contents of a volume are laid out in blocks; what the encodings are does not matter. */
  datatype Format = Format(boot: Block, super: Block, inodes: seq<V.Inode> -> Block, bits: seq<bool> -> Block,
                           data: V.Block -> Block)

  /** mkfs's order: boot block, super block, log, inodes, bitmap, data. */
  predicate Laid(nlog: nat, sb: V.Super)
  {
    sb.inodestart == START + nlog && sb.inodestart <= sb.bmapstart <= sb.datastart <= sb.size
  }

  /** The n elements of s from lo, or as many as there are. */
  function Clip<T>(s: seq<T>, lo: nat, n: nat): (r: seq<T>)
    ensures |r| == if lo + n <= |s| then n else if lo <= |s| then |s| - lo else 0
    ensures forall k :: 0 <= k < |r| ==> r[k] == s[lo + k]
  {
    if lo + n <= |s| then s[lo..lo + n] else if lo <= |s| then s[lo..] else []
  }

  /** What home block b holds when the volume is v. */
  function HomeBlock(fmt: Format, nlog: nat, sb: V.Super, v: V.Volume, b: nat): (data: Block)
    requires Laid(nlog, sb) && V.WellFormed(sb, v) && b < sb.size && Home(nlog, b)
  {
    if b == 0 then fmt.boot
    else if b < START then fmt.super
    else if b < sb.bmapstart then fmt.inodes(Clip(v.inodes, (b - sb.inodestart) * V.IPB, V.IPB))
    else if b < sb.datastart then fmt.bits(Clip(v.bitmap, (b - sb.bmapstart) * V.BPB, V.BPB))
    else fmt.data(v.blocks[b])
  }

  /** The home blocks of image d are those of volume v. */
  ghost predicate Holds(fmt: Format, nlog: nat, sb: V.Super, v: V.Volume, d: Image)
  {
    && Laid(nlog, sb) && V.WellFormed(sb, v) && |d| == sb.size
    && forall b {:trigger Home(nlog, b)} :: 0 <= b < sb.size && Home(nlog, b) ==> d[b] == HomeBlock(fmt, nlog, sb, v, b)
  }

  /** A home block that a transaction does not log holds the same before and after. */
  lemma KeptBlock(fmt: Format, nlog: nat, sb: V.Super, v: V.Volume, v': V.Volume, l: set<nat>, b: nat)
    requires Laid(nlog, sb) && V.WellFormed(sb, v) && V.WellFormed(sb, v') && V.DiskKept(sb, v, v', l)
    requires b < sb.size && Home(nlog, b) && b !in l
    ensures HomeBlock(fmt, nlog, sb, v', b) == HomeBlock(fmt, nlog, sb, v, b)
  {
    if START <= b < sb.bmapstart {
      KeptInodes(sb, v, v', l, b);
    } else if sb.bmapstart <= b < sb.datastart {
      KeptBits(sb, v, v', l, b);
    } else if sb.datastart <= b {
      assert !V.LoggedAt(l, b);
    }
  }

  lemma KeptInodes(sb: V.Super, v: V.Volume, v': V.Volume, l: set<nat>, b: nat)
    requires V.DiskKept(sb, v, v', l) && b >= sb.inodestart && b !in l
    ensures Clip(v'.inodes, (b - sb.inodestart) * V.IPB, V.IPB) == Clip(v.inodes, (b - sb.inodestart) * V.IPB, V.IPB)
  {
    var lo := (b - sb.inodestart) * V.IPB;
    var c, c' := Clip(v.inodes, lo, V.IPB), Clip(v'.inodes, lo, V.IPB);
    forall k | 0 <= k < |c|
      ensures c'[k] == c[k]
    {
      assert V.IBlock(sb, lo + k) == b;
      assert !V.LoggedAt(l, V.IBlock(sb, lo + k));
    }
  }

  lemma KeptBits(sb: V.Super, v: V.Volume, v': V.Volume, l: set<nat>, b: nat)
    requires V.DiskKept(sb, v, v', l) && b >= sb.bmapstart && b !in l
    ensures Clip(v'.bitmap, (b - sb.bmapstart) * V.BPB, V.BPB) == Clip(v.bitmap, (b - sb.bmapstart) * V.BPB, V.BPB)
  {
    var lo := (b - sb.bmapstart) * V.BPB;
    var c, c' := Clip(v.bitmap, lo, V.BPB), Clip(v'.bitmap, lo, V.BPB);
    forall k | 0 <= k < |c|
      ensures c'[k] == c[k]
    {
      assert V.BBlock(sb, lo + k) == b;
      assert !V.LoggedAt(l, V.BBlock(sb, lo + k));
    }
  }

  // The writes of one transaction.

  /** ws[k] is the last write to block b, with the data. */
  ghost predicate IsLast(ws: seq<Write>, k: nat, b: nat, data: Block)
  {
    && k < |ws| && ws[k].blockno == b && ws[k].data == data
    && forall m :: k < m < |ws| ==> ws[m].blockno != b
  }

  /** The log_writes of call `op`, which leaves the volume v' and logs the blocks l. */
  ghost predicate WritesOf(fmt: Format, nlog: nat, sb: V.Super, v': V.Volume, l: set<nat>, ws: seq<Write>, op: nat)
    requires Laid(nlog, sb) && V.WellFormed(sb, v')
  {
    && (forall k :: 0 <= k < |ws| ==> ws[k].op == op && ws[k].blockno in l)
    && (forall b {:trigger Home(nlog, b)} :: 0 <= b < sb.size && Home(nlog, b) && b in l ==>
          exists k :: IsLast(ws, k, b, HomeBlock(fmt, nlog, sb, v', b)))
  }

  lemma {:induction false} ReplayLast(d: Image, ws: seq<Write>, k: nat, b: nat, data: Block)
    requires IsLast(ws, k, b, data) && b < |d|
    ensures Replay(d, ws)[b] == data
    decreases |ws|
  {
    var last := |ws| - 1;
    if k < last {
      assert IsLast(ws[..last], k, b, data);
      ReplayLast(d, ws[..last], k, b, data);
    }
  }

  lemma {:induction false} ReplayElsewhere(d: Image, ws: seq<Write>, b: nat)
    requires b < |d| && forall k :: 0 <= k < |ws| ==> ws[k].blockno != b
    ensures Replay(d, ws)[b] == d[b]
    decreases |ws|
  {
    if ws != [] {
      ReplayElsewhere(d, ws[..|ws| - 1], b);
    }
  }

  /** A transaction's writes take the image of the volume before it to that of the volume after it. */
  lemma ReplayTransaction(fmt: Format, nlog: nat, sb: V.Super, v: V.Volume, v': V.Volume, l: set<nat>, ws: seq<Write>,
                          op: nat, d: Image)
    requires Holds(fmt, nlog, sb, v, d) && V.WellFormed(sb, v') && V.DiskKept(sb, v, v', l)
    requires WritesOf(fmt, nlog, sb, v', l, ws, op)
    ensures Holds(fmt, nlog, sb, v', Replay(d, ws))
  {
    forall b | 0 <= b < sb.size && Home(nlog, b)
      ensures Replay(d, ws)[b] == HomeBlock(fmt, nlog, sb, v', b)
    {
      if b in l {
        var k :| IsLast(ws, k, b, HomeBlock(fmt, nlog, sb, v', b));
        ReplayLast(d, ws, k, b, HomeBlock(fmt, nlog, sb, v', b));
      } else {
        ReplayElsewhere(d, ws, b);
        KeptBlock(fmt, nlog, sb, v, v', l, b);
      }
    }
  }

  lemma {:induction false} ReplayConcat(d: Image, a: seq<Write>, b: seq<Write>)
    ensures Replay(d, a + b) == Replay(Replay(d, a), b)
    decreases |b|
  {
    if b == [] {
      assert a + b == a;
    } else {
      assert (a + b)[..|a + b| - 1] == a + b[..|b| - 1];
      ReplayConcat(d, a, b[..|b| - 1]);
    }
  }

  // The writes of all of them.

  /** The writes of the first q transactions. */
  function Flat(wss: seq<seq<Write>>, q: nat): (ws: seq<Write>)
    requires q <= |wss|
  {
    if q == 0 then [] else Flat(wss, q - 1) + wss[q - 1]
  }

  ghost predicate AllWrites(fmt: Format, nlog: nat, sb: V.Super, steps: seq<V.Volume>, transactions: seq<set<nat>>,
                            wss: seq<seq<Write>>, ids: seq<nat>)
  {
    && Laid(nlog, sb) && |wss| == |ids| == |transactions| && |steps| == |transactions| + 1
    && (forall q :: 0 <= q < |steps| ==> V.WellFormed(sb, steps[q]))
    && (forall q :: 0 <= q < |wss| ==> WritesOf(fmt, nlog, sb, steps[q + 1], transactions[q], wss[q], ids[q]))
  }

  lemma {:induction false} ReplayChunks(fmt: Format, nlog: nat, sb: V.Super, steps: seq<V.Volume>,
                                        transactions: seq<set<nat>>, wss: seq<seq<Write>>, ids: seq<nat>, d: Image,
                                        q: nat)
    requires AllWrites(fmt, nlog, sb, steps, transactions, wss, ids) && q <= |wss| && Holds(fmt, nlog, sb, steps[0], d)
    requires forall k :: 0 <= k < |transactions| ==> V.DiskKept(sb, steps[k], steps[k + 1], transactions[k])
    ensures Holds(fmt, nlog, sb, steps[q], Replay(d, Flat(wss, q)))
    decreases q
  {
    if q > 0 {
      ReplayChunks(fmt, nlog, sb, steps, transactions, wss, ids, d, q - 1);
      ReplayConcat(d, Flat(wss, q - 1), wss[q - 1]);
      assert V.DiskKept(sb, steps[q - 1], steps[q - 1 + 1], transactions[q - 1]);
      ReplayTransaction(fmt, nlog, sb, steps[q - 1], steps[q], transactions[q - 1], wss[q - 1], ids[q - 1],
                        Replay(d, Flat(wss, q - 1)));
    }
  }

  // Where a crash can cut them.

  /** The journal is what one process has logged doing the transactions one after the other: whole ones, and of
      the call it is in, if any, the writes so far. */
  ghost predicate Issued(s: State, wss: seq<seq<Write>>, ids: seq<nat>, j: nat, p: nat)
  {
    && |wss| == |ids| && j <= |wss| && (p > 0 ==> j < |wss| && p < |wss[j]|)
    && s.journal == Flat(wss, j) + (if p > 0 then wss[j][..p] else [])
    && (p > 0 ==> exists i :: 0 <= i < |s.ops| && s.ops[i].op == ids[j])
  }

  predicate SameOps(wss: seq<seq<Write>>, ids: seq<nat>)
  {
    |wss| == |ids| && forall q, k :: 0 <= q < |wss| && 0 <= k < |wss[q]| ==> wss[q][k].op == ids[q]
  }

  /** Two neighbours in the last transaction are writes of the same call. */
  lemma SameOpInside(wss: seq<seq<Write>>, ids: seq<nat>, j: nat, m: nat)
    requires SameOps(wss, ids) && 0 < j <= |wss|
    ensures |Flat(wss, j - 1)| < m < |Flat(wss, j)| ==> Flat(wss, j)[m - 1].op == Flat(wss, j)[m].op
  {
    var prior := |Flat(wss, j - 1)|;
    if prior < m < |Flat(wss, j)| {
      assert Flat(wss, j)[m - 1] == wss[j - 1][m - 1 - prior] && Flat(wss, j)[m] == wss[j - 1][m - prior];
    }
  }

  /** A write after the whole transactions is of the call in progress. */
  lemma OpenCallOp(s: State, wss: seq<seq<Write>>, ids: seq<nat>, j: nat, p: nat, m: int)
    requires Issued(s, wss, ids, j, p) && SameOps(wss, ids)
    ensures |Flat(wss, j)| <= m < |s.journal| ==> p > 0 && s.journal[m].op == ids[j]
  {
    if |Flat(wss, j)| <= m < |s.journal| {
      assert s.journal[m] == wss[j][m - |Flat(wss, j)|];
    }
  }

  /** A prefix of the whole transactions' writes that splits no transaction is some number of them. */
  lemma {:induction false} CutFlat(wss: seq<seq<Write>>, ids: seq<nat>, j: nat, cut: nat) returns (q: nat)
    requires SameOps(wss, ids) && j <= |wss| && cut <= |Flat(wss, j)|
    requires 0 < cut < |Flat(wss, j)| ==> Flat(wss, j)[cut - 1].op != Flat(wss, j)[cut].op
    ensures q <= j && Flat(wss, j)[..cut] == Flat(wss, q)
    decreases j
  {
    if cut == |Flat(wss, j)| {
      assert Flat(wss, j)[..cut] == Flat(wss, j);
      return j;
    }
    var prior := |Flat(wss, j - 1)|;
    SameOpInside(wss, ids, j, cut);
    assert cut <= prior;
    assert forall k :: 0 <= k < prior ==> Flat(wss, j)[k] == Flat(wss, j - 1)[k];
    q := CutFlat(wss, ids, j - 1, cut);
    assert Flat(wss, j)[..cut] == Flat(wss, j - 1)[..cut];
  }

  /** What is committed is some number of whole transactions. */
  lemma CommittedWhole(s: State, wss: seq<seq<Write>>, ids: seq<nat>, j: nat, p: nat) returns (q: nat)
    requires WholeCalls(s) && Issued(s, wss, ids, j, p) && SameOps(wss, ids)
    ensures q <= |wss| && s.journal[..s.cut] == Flat(wss, q)
  {
    var flat := Flat(wss, j);
    OpenCallOp(s, wss, ids, j, p, s.cut - 1);
    assert s.cut <= |flat|;
    assert s.journal[..s.cut] == flat[..s.cut];
    if 0 < s.cut < |flat| {
      assert s.journal[s.cut - 1] == flat[s.cut - 1] && s.journal[s.cut] == flat[s.cut];
    }
    q := CutFlat(wss, ids, j, s.cut);
  }

  /** Wherever the machine stops, recovery leaves the disk of some volume of the write's history: the file as it was
      with a whole number of chunks written, every other file as it was, and the volume sound. */
  lemma CrashLeavesWholeChunks(c: Config, run: seq<State>, k: nat, fmt: Format, sb: V.Super, inum: nat, off0: nat,
                               addr: seq<V.Byte>, n: nat, steps: seq<V.Volume>, transactions: seq<set<nat>>,
                               wss: seq<seq<Write>>, ids: seq<nat>, j: nat, p: nat)
    returns (q: nat, image: Image)
    requires IsRun(c, run) && k < |run| && Within(c, run, k) && F.History(sb, steps, transactions, inum, off0, addr, n)
    requires Holds(fmt, c.nlog, sb, steps[0], c.init) && AllWrites(fmt, c.nlog, sb, steps, transactions, wss, ids)
    requires Issued(run[k], wss, ids, j, p)
    ensures q < |steps| && RecoversTo(c.nlog, run[k].disk, image) && Holds(fmt, c.nlog, sb, steps[q], image)
    ensures F.HasChunks(sb, steps, q, inum, off0, addr, n)
  {
    CrashAtomicity(c, run, k);
    q := CommittedWhole(run[k], wss, ids, j, p);
    image := Replay(c.init, Flat(wss, q));
    forall m | 0 <= m < |transactions|
      ensures V.DiskKept(sb, steps[m], steps[m + 1], transactions[m])
    {
      assert F.IsTransaction(sb, steps, transactions, m);
    }
    ReplayChunks(fmt, c.nlog, sb, steps, transactions, wss, ids, c.init, q);
    assert F.HasChunks(sb, steps, q, inum, off0, addr, n);
  }
}
