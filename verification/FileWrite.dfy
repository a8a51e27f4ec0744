/** filewrite's chunking loop (file.c) over writei: what a whole write does to the file, and how many
    blocks each of its transactions logs. */
module FileWrite {
  import opened Volume
  import opened Fs
  import opened Params

  const CHUNK := 1536  // ((MAXOPBLOCKS-1-1-2) / 2) * 512

  class OpenFile {
    const writable: bool
    var off: nat

    constructor (writable: bool)
      ensures this.writable == writable && off == 0
    {
      this.writable := writable;
      off := 0;
    }
  }

  lemma {:induction false} LogsCount(sb: Super, v: Volume, i: nat, lo: nat, hi: nat)
    requires WellFormed(sb, v) && i < sb.ninodes && hi <= MAXFILE
    ensures |BlocksIn(sb, v, i, lo, hi)| <= (if lo < hi then hi - lo else 0)
    ensures |BitmapIn(sb, v, i, lo, hi)| <= (if lo < hi then hi - lo else 0)
    decreases hi
  {
    if lo < hi {
      LogsCount(sb, v, i, lo, hi - 1);
    }
  }

  /** One chunk, at any offset up to the end of the file, logs at most MAXOPBLOCKS blocks: up to four data
      blocks of which at most three are new, a bitmap block for each new one and for a new indirect block,
      the indirect block and the inode. */
  lemma ChunkFitsTransaction(sb: Super, v: Volume, i: nat, off: nat, n: nat, size: nat)
    requires WellFormed(sb, v) && i < sb.ninodes && off + n <= MAXFILE * BSIZE && off <= size <= MAXFILE * BSIZE
    requires 0 < n <= CHUNK
    ensures |Logged(sb, v, i, off, n, size)| <= MAXOPBLOCKS
  {
    var lo, hi, n0 := off / BSIZE, BlocksFor(off + n), BlocksFor(size);
    var n1 := Max(n0, hi);
    LogsCount(sb, v, i, lo, hi);
    LogsCount(sb, v, i, n0, n1);
    assert |IndirectLogs(sb, v, i, n0, n1)| <= 2;
    // an unaligned first block exists already
    assert (hi - lo) + (n1 - n0) <= 7;
  }

  /** The bound is reached: appending a full chunk after the first byte of the file's tenth block takes
      four data blocks, the indirect block and the inode, and four bitmap blocks when the four blocks
      allocated have their bits in different ones. */
  lemma TenIsReached(sb: Super, v: Volume, i: nat)
    requires Owned(sb, v) && i < sb.ninodes && Allocated(sb, v, i, 13) && BitmapBeforeData(sb, i)
    requires forall k, k' :: 10 <= k < k' <= 13 ==> MapOf(sb, v, i, k) != MapOf(sb, v, i, k')
    ensures |Logged(sb, v, i, 9 * BSIZE + 1, CHUNK, 9 * BSIZE + 1)| == MAXOPBLOCKS
  {
    var data := FileBlocksDiffer(sb, v, i);
    TenthBlockCount(sb, v, i, 9 * BSIZE + 1, data);
  }

  /** The bound rests on writei's refusal to start past the end of the file, which leaves an unaligned first
      block already allocated: the same chunk written over a hole there would log one block too many. */
  lemma HoleWouldOverflow(sb: Super, v: Volume, i: nat)
    requires Owned(sb, v) && i < sb.ninodes && Allocated(sb, v, i, 13) && BitmapBeforeData(sb, i)
    requires forall k, k' :: 9 <= k < k' <= 13 ==> MapOf(sb, v, i, k) != MapOf(sb, v, i, k')
    ensures |Logged(sb, v, i, 9 * BSIZE + 1, CHUNK, 9 * BSIZE)| == MAXOPBLOCKS + 1
  {
    var data := FileBlocksDiffer(sb, v, i);
    TenthBlockCount(sb, v, i, 9 * BSIZE, data);
  }

  /** The bitmap blocks of the blocks such a chunk allocates: the tenth too if the file ended before it. */
  ghost function TenthBlockMaps(sb: Super, v: Volume, i: nat, size: nat): (maps: set<nat>)
    requires WellFormed(sb, v) && i < sb.ninodes
  {
    if size > 9 * BSIZE then {MapOf(sb, v, i, 10), MapOf(sb, v, i, 11), MapOf(sb, v, i, 12), MapOf(sb, v, i, 13)}
    else {MapOf(sb, v, i, 10), MapOf(sb, v, i, 11), MapOf(sb, v, i, 12), MapOf(sb, v, i, 13), MapOf(sb, v, i, 9)}
  }

  lemma TenthBlockCount(sb: Super, v: Volume, i: nat, size: nat, data: set<nat>)
    requires WellFormed(sb, v) && i < sb.ninodes && 9 * BSIZE <= size <= 9 * BSIZE + 1 && BitmapBeforeData(sb, i)
    requires data == BlocksIn(sb, v, i, 9, 13) + {Slot(sb, v, i, NDIRECT)} && |data| == 5
    requires SlotsInData(sb, v, i) && AllAbove(data, sb.datastart)
    requires forall k, k' :: BlocksFor(size) <= k < k' <= 13 ==> MapOf(sb, v, i, k) != MapOf(sb, v, i, k')
    ensures |Logged(sb, v, i, 9 * BSIZE + 1, CHUNK, size)| == 20 - BlocksFor(size)
  {
    TenthBlockLogs(sb, v, i, size);
    var b9, b10, b11, b12, b13 := MapOf(sb, v, i, 9), MapOf(sb, v, i, 10), MapOf(sb, v, i, 11), MapOf(sb, v, i, 12),
      MapOf(sb, v, i, 13);
    FourDistinct(b10, b11, b12, b13);
    if size == 9 * BSIZE {
      FiveDistinct(b10, b11, b12, b13, b9);
    }
    var maps := TenthBlockMaps(sb, v, i, size);
    MapsInBitmap(sb, v, i, size, maps);
    CountParts(data, maps, IBlock(sb, i), sb.bmapstart, sb.datastart);
  }

  lemma MapsInBitmap(sb: Super, v: Volume, i: nat, size: nat, maps: set<nat>)
    requires WellFormed(sb, v) && i < sb.ninodes && BitmapBeforeData(sb, i) && SlotsInData(sb, v, i)
    requires maps == TenthBlockMaps(sb, v, i, size)
    ensures forall b :: b in maps ==> sb.bmapstart <= b < sb.datastart
  {
    assert forall k :: 9 <= k <= 13 ==> sb.bmapstart <= MapOf(sb, v, i, k) < sb.datastart;
  }

  lemma TenthBlockLogs(sb: Super, v: Volume, i: nat, size: nat)
    requires WellFormed(sb, v) && i < sb.ninodes && 9 * BSIZE <= size <= 9 * BSIZE + 1
    ensures Logged(sb, v, i, 9 * BSIZE + 1, CHUNK, size) ==
      (BlocksIn(sb, v, i, 9, 13) + {Slot(sb, v, i, NDIRECT)}) + TenthBlockMaps(sb, v, i, size) + {IBlock(sb, i)}
  {
    var n0 := BlocksFor(size);
    UnrollBitmap(sb, v, i, n0);
    assert IndirectLogs(sb, v, i, n0, 13) == {Slot(sb, v, i, NDIRECT), MapOf(sb, v, i, 12)};
    assert Logged(sb, v, i, 9 * BSIZE + 1, CHUNK, size) == WriteLogs(sb, v, i, 9, 13, n0, 13) + {IBlock(sb, i)};
  }

  /** The inode blocks come before the bitmap, and the bitmap before the data, as mkfs lays them out. */
  ghost predicate BitmapBeforeData(sb: Super, i: nat)
  {
    && IBlock(sb, i) < sb.bmapstart <= sb.datastart
    && forall b {:trigger BBlock(sb, b)} :: sb.datastart <= b < sb.size ==> sb.bmapstart <= BBlock(sb, b) < sb.datastart
  }

  ghost predicate SlotsInData(sb: Super, v: Volume, i: nat)
    requires WellFormed(sb, v) && i < sb.ninodes
  {
    forall k {:trigger MapOf(sb, v, i, k)} :: 9 <= k <= 13 ==> sb.datastart <= Slot(sb, v, i, k) < sb.size
  }

  ghost predicate AllAbove(data: set<nat>, d: nat)
  {
    forall a :: a in data ==> d <= a
  }

  /** The bitmap block of slot k. */
  function MapOf(sb: Super, v: Volume, i: nat, k: nat): (b: nat)
    requires WellFormed(sb, v) && i < sb.ninodes && k < SLOTS
  {
    BBlock(sb, Slot(sb, v, i, k))
  }

  /** A file's tenth to thirteenth block and its indirect block are five data blocks. */
  lemma FileBlocksDiffer(sb: Super, v: Volume, i: nat) returns (data: set<nat>)
    requires Owned(sb, v) && i < sb.ninodes && Allocated(sb, v, i, 13)
    ensures data == BlocksIn(sb, v, i, 9, 13) + {Slot(sb, v, i, NDIRECT)} && |data| == 5
    ensures SlotsInData(sb, v, i) && AllAbove(data, sb.datastart)
  {
    forall k | 9 <= k <= 13
      ensures sb.datastart <= Slot(sb, v, i, k) < sb.size
    {
      assert (k < 12 ==> k == DataSlot(k)) && (k > 12 ==> k == DataSlot(k - 1));
    }
    var a9, a10, a11, a12, a13 := Slot(sb, v, i, 9), Slot(sb, v, i, 10), Slot(sb, v, i, 11), Slot(sb, v, i, 12),
      Slot(sb, v, i, 13);
    assert Both(i, 9, i, 10) && Both(i, 9, i, 11) && Both(i, 9, i, 12) && Both(i, 9, i, 13) && Both(i, 10, i, 11);
    assert Both(i, 10, i, 12) && Both(i, 10, i, 13) && Both(i, 11, i, 12) && Both(i, 11, i, 13) && Both(i, 12, i, 13);
    FiveDistinct(a9, a10, a11, a12, a13);
    UnrollBlocks(sb, v, i, 9);
    data := {a9, a10, a11, a12, a13};
  }

  lemma UnrollBlocks(sb: Super, v: Volume, i: nat, lo: nat)
    requires WellFormed(sb, v) && i < sb.ninodes && lo + 4 <= MAXFILE
    ensures BlocksIn(sb, v, i, lo, lo + 4) == {Slot(sb, v, i, DataSlot(lo)), Slot(sb, v, i, DataSlot(lo + 1)),
                                               Slot(sb, v, i, DataSlot(lo + 2)), Slot(sb, v, i, DataSlot(lo + 3))}
  {
    assert BlocksIn(sb, v, i, lo, lo + 1) == {Slot(sb, v, i, DataSlot(lo))};
    assert BlocksIn(sb, v, i, lo, lo + 2) == {Slot(sb, v, i, DataSlot(lo)), Slot(sb, v, i, DataSlot(lo + 1))};
  }

  lemma UnrollBitmap(sb: Super, v: Volume, i: nat, lo: nat)
    requires WellFormed(sb, v) && i < sb.ninodes && 9 <= lo <= 10
    ensures BitmapIn(sb, v, i, lo, 13) == {MapOf(sb, v, i, 10), MapOf(sb, v, i, 11), MapOf(sb, v, i, 13)} +
              if lo == 9 then {MapOf(sb, v, i, 9)} else {}
  {
    assert BitmapIn(sb, v, i, lo, lo + 1) == {MapOf(sb, v, i, lo)};
    assert BitmapIn(sb, v, i, lo, 11) == {MapOf(sb, v, i, 10)} + if lo == 9 then {MapOf(sb, v, i, 9)} else {};
    assert BitmapIn(sb, v, i, lo, 12) ==
      {MapOf(sb, v, i, 10), MapOf(sb, v, i, 11)} + if lo == 9 then {MapOf(sb, v, i, 9)} else {};
  }

  lemma CountParts(data: set<nat>, maps: set<nat>, ino: nat, m: nat, d: nat)
    requires AllAbove(data, d) && (forall b :: b in maps ==> m <= b < d) && ino < m <= d
    ensures |data + maps + {ino}| == |data| + |maps| + 1
  {
    assert data !! maps;
    assert ino !in data + maps;
  }

  lemma FourDistinct(a: nat, b: nat, c: nat, d: nat)
    requires a != b && a != c && a != d && b != c && b != d && c != d
    ensures |{a, b, c, d}| == 4
  {
    assert {a, b, c, d} == {a} + {b} + {c} + {d};
  }

  lemma FiveDistinct(a: nat, b: nat, c: nat, d: nat, e: nat)
    requires a != b && a != c && a != d && b != c && b != d && c != d && e != a && e != b && e != c && e != d
    ensures |{a, b, c, d, e}| == 5
  {
    FourDistinct(a, b, c, d);
    assert {a, b, c, d, e} == {a, b, c, d} + {e};
  }

  // The whole write.

  lemma SpliceTwice(c: seq<Byte>, off: nat, a: seq<Byte>, b: seq<Byte>)
    requires off <= |c|
    ensures off + |a| <= |Splice(c, off, a)|
    ensures Splice(Splice(c, off, a), off + |a|, b) == Splice(c, off, a + b)
  {
  }

  /** File i holds what it held in v0 with `bytes` written at off, and every other file is as in v0. */
  ghost predicate Appended(sb: Super, v0: Volume, v: Volume, i: nat, off: nat, bytes: seq<Byte>)
  {
    && OtherFilesKept(sb, v0, v, i) && i < sb.ninodes
    && off <= v0.inodes[i].size
    && Contents(sb, v, i) == Splice(Contents(sb, v0, i), off, bytes)
  }

  /** The state after the bytes a have been written at off0 (no bytes, no change), the volume sound and
      the disk inode in step with the in-memory one. */
  ghost predicate Sofar(sb: Super, v0: Volume, v: Volume, d: seq<Inode>, i: nat, off0: nat, a: seq<Byte>)
  {
    && Sound(sb, v) && i < sb.ninodes && |d| == sb.ninodes && d[i] == v.inodes[i]
    && if a == [] then v == v0 else Appended(sb, v0, v, i, off0, a)
  }

  /** The volume after each transaction of a write so far of n bytes: each is sound and holds whole chunks of addr, and
      each transaction logs at most MAXOPBLOCKS blocks and changes no other block of the disk. */
  ghost predicate History(sb: Super, steps: seq<Volume>, transactions: seq<set<nat>>, i: nat, off0: nat,
                          addr: seq<Byte>, n: nat)
  {
    && n <= |addr| && |steps| == |transactions| + 1
    && (forall k {:trigger IsTransaction(sb, steps, transactions, k)} :: 0 <= k < |transactions| ==>
        IsTransaction(sb, steps, transactions, k))
    && (forall k {:trigger HasChunks(sb, steps, k, i, off0, addr, n)} :: 0 <= k < |steps| ==>
        HasChunks(sb, steps, k, i, off0, addr, n))
  }

  ghost predicate IsTransaction(sb: Super, steps: seq<Volume>, transactions: seq<set<nat>>, k: nat)
    requires k < |transactions| && |steps| == |transactions| + 1
  {
    |transactions[k]| <= MAXOPBLOCKS && DiskKept(sb, steps[k], steps[k + 1], transactions[k])
  }

  /** The volume after k transactions holds the first k chunks of the n bytes. */
  ghost predicate HasChunks(sb: Super, steps: seq<Volume>, k: nat, i: nat, off0: nat, addr: seq<Byte>, n: nat)
    requires k < |steps| && n <= |addr|
  {
    Sofar(sb, steps[0], steps[k], steps[k].inodes, i, off0, addr[..if k * CHUNK < n then k * CHUNK else n])
  }

  lemma HistoryStarts(sb: Super, v: Volume, i: nat, off0: nat, addr: seq<Byte>)
    requires Sound(sb, v) && i < sb.ninodes
    ensures History(sb, [v], [], i, off0, addr, 0)
  {
  }

  /** One more transaction, of the bytes n..n', whole chunks having gone before. */
  lemma HistoryNext(sb: Super, steps: seq<Volume>, transactions: seq<set<nat>>, i: nat, off0: nat, addr: seq<Byte>,
                    n: nat, v: Volume, l: set<nat>, n': nat, steps': seq<Volume>, transactions': seq<set<nat>>)
    requires History(sb, steps, transactions, i, off0, addr, n) && n == |transactions| * CHUNK < n' <= n + CHUNK
    requires n' <= |addr|
    requires |l| <= MAXOPBLOCKS && DiskKept(sb, steps[|steps| - 1], v, l)
    requires Sofar(sb, steps[0], v, v.inodes, i, off0, addr[..n'])
    requires steps' == steps + [v] && transactions' == transactions + [l]
    ensures History(sb, steps', transactions', i, off0, addr, n')
  {
    forall k | 0 <= k < |transactions'|
      ensures IsTransaction(sb, steps', transactions', k)
    {
      if k < |transactions| {
        assert IsTransaction(sb, steps, transactions, k);
      }
    }
    forall k | 0 <= k < |steps'|
      ensures HasChunks(sb, steps', k, i, off0, addr, n')
    {
      if k < |steps| {
        assert HasChunks(sb, steps, k, i, off0, addr, n);
      }
    }
  }

  /** What one transaction leaves. */
  lemma ChunkDone(sb: Super, v0: Volume, v: Volume, d: seq<Inode>, v': Volume, l': set<nat>, d': seq<Inode>,
                  i: nat, off0: nat, off: nat, a: seq<Byte>, b: seq<Byte>, ab: seq<Byte>)
    requires Sofar(sb, v0, v, d, i, off0, a)
    requires off == off0 + |a| && ab == a + b && 0 < |b| <= CHUNK && Wrote(sb, v, {}, d, v', l', d', i, off, b)
    ensures Sofar(sb, v0, v', d', i, off0, ab) && |l'| <= MAXOPBLOCKS
  {
    ChunkLogs(sb, v, d, v', l', d', i, off, b);
    if a == [] {
      assert ab == b;
      FirstAppended(sb, v, d, v', l', d', i, off, b);
    } else {
      AppendedStep(sb, v0, v, {}, d, v', l', d', i, off0, off, a, b, ab);
    }
  }

  lemma ChunkLogs(sb: Super, v: Volume, d: seq<Inode>, v': Volume, l': set<nat>, d': seq<Inode>, i: nat, off: nat,
                  b: seq<Byte>)
    requires Wrote(sb, v, {}, d, v', l', d', i, off, b) && 0 < |b| <= CHUNK
    ensures |l'| <= MAXOPBLOCKS && Sound(sb, v') && |d'| == sb.ninodes && d'[i] == v'.inodes[i]
  {
    ChunkFitsTransaction(sb, v', i, off, |b|, v.inodes[i].size);
    assert l' == Logged(sb, v', i, off, |b|, v.inodes[i].size);
  }

  lemma FirstAppended(sb: Super, v: Volume, d: seq<Inode>, v': Volume, l': set<nat>, d': seq<Inode>, i: nat, off: nat,
                      b: seq<Byte>)
    requires Wrote(sb, v, {}, d, v', l', d', i, off, b)
    ensures Appended(sb, v, v', i, off, b)
  {
  }

  lemma AppendedStep(sb: Super, v0: Volume, v: Volume, l: set<nat>, d: seq<Inode>, v': Volume, l': set<nat>,
                     d': seq<Inode>, i: nat, off: nat, at: nat, a: seq<Byte>, b: seq<Byte>, ab: seq<Byte>)
    requires Appended(sb, v0, v, i, off, a) && Wrote(sb, v, l, d, v', l', d', i, at, b) && at == off + |a|
    requires ab == a + b
    ensures Appended(sb, v0, v', i, off, ab)
  {
    SpliceTwice(Contents(sb, v0, i), off, a, b);
  }

  /** What the loop has written: the bytes addr[..i], by the transactions so far. */
  ghost predicate Going(sb: Super, v0: Volume, v: Volume, d: seq<Inode>, inum: nat, off0: nat, addr: seq<Byte>, i: nat,
                        steps: seq<Volume>, transactions: seq<set<nat>>)
  {
    && i <= |addr| && Sofar(sb, v0, v, d, inum, off0, addr[..i]) && d == v.inodes
    && History(sb, steps, transactions, inum, off0, addr, i) && steps[0] == v0 && steps[|steps| - 1] == v
  }

  lemma GoingStarts(sb: Super, v: Volume, d: seq<Inode>, inum: nat, off0: nat, addr: seq<Byte>)
    requires Sound(sb, v) && inum < sb.ninodes && d == v.inodes
    ensures Going(sb, v, v, d, inum, off0, addr, 0, [v], [])
  {
    HistoryStarts(sb, v, inum, off0, addr);
  }

  /** One transaction more. */
  lemma GoingOn(sb: Super, v0: Volume, v: Volume, d: seq<Inode>, v': Volume, l': set<nat>, d': seq<Inode>, inum: nat,
                off0: nat, at: nat, addr: seq<Byte>, i: nat, b: seq<Byte>, i': nat, steps: seq<Volume>,
                transactions: seq<set<nat>>, steps': seq<Volume>, transactions': seq<set<nat>>)
    requires Going(sb, v0, v, d, inum, off0, addr, i, steps, transactions) && at == off0 + i
    requires i == |transactions| * CHUNK < i' <= i + CHUNK && i' <= |addr| && b == addr[i..i'] && d' == v'.inodes
    requires Wrote(sb, v, {}, d, v', l', d', inum, at, b)
    requires steps' == steps + [v'] && transactions' == transactions + [l']
    ensures Going(sb, v0, v', d', inum, off0, addr, i', steps', transactions')
    ensures at + |b| == off0 + i' < UINT && |transactions'| == |transactions| + 1
  {
    NextPiece(addr, i, i');
    ChunkDone(sb, v0, v, d, v', l', d', inum, off0, at, addr[..i], b, addr[..i']);
    WroteKeepsDisk(sb, v, v', l', inum, at, b);
    HistoryNext(sb, steps, transactions, inum, off0, addr, i, v', l', i', steps', transactions');
  }

  /** One round of the loop: one transaction, writing the bytes i..i' after those already written. */
  method WriteChunk(fs: FileSystem, f: OpenFile, ip: InodeRef, addr: seq<Byte>, i: nat, i': nat, writers: set<int>,
                    ghost v0: Volume, ghost off0: nat, ghost steps: seq<Volume>, ghost transactions: seq<set<nat>>)
    returns (r: Io, ghost steps': seq<Volume>, ghost transactions': seq<set<nat>>)
    requires Going(fs.sb, v0, fs.View(ip), fs.dinodes, ip.inum, off0, addr, i, steps, transactions)
    requires i == |transactions| * CHUNK < i' <= i + CHUNK && i' <= |addr| && f.off == off0 + i < UINT
    modifies fs`bitmap, fs`blocks, fs`logged, fs`dinodes, ip`addrs, ip`size, f`off
    ensures r.Device? ==> ip.typ == T_DEV
    ensures !r.Done? ==> steps' == steps && transactions' == transactions && f.off == old(f.off)
    ensures r == Err || r.Device? ==> fs.View(ip) == old(fs.View(ip)) && fs.dinodes == old(fs.dinodes)
    ensures r == Err && ip.typ != T_DEV ==> f.off > ip.size || f.off + (i' - i) > MAXFILE * BSIZE
    ensures r == Panic ==> ip.typ != T_DEV && Full(fs.bitmap)
    ensures r.Done? ==> ip.typ != T_DEV && f.off == off0 + i' < UINT && |transactions'| == |transactions| + 1
    ensures r.Done? ==> Going(fs.sb, v0, fs.View(ip), fs.dinodes, ip.inum, off0, addr, i', steps', transactions')
  {
    steps', transactions' := steps, transactions;
    fs.logged := {};  // begin_op
    ghost var v, d, at := fs.View(ip), fs.dinodes, f.off;
    var b := addr[i..i'];
    r := fs.Writei(ip, b, f.off, writers);
    if r.Done? && ip.typ != T_DEV {
      f.off := f.off + r.n;
      ghost var v', d' := fs.View(ip), fs.dinodes;
      assert d' == v'.inodes;
      steps', transactions' := steps + [v'], transactions + [fs.logged];
      GoingOn(fs.sb, v0, v, d, v', fs.logged, d', ip.inum, off0, at, addr, i, b, i', steps, transactions, steps',
              transactions');
    }
  }

  /** Writes addr[..n] at the file's offset, in transactions of at most CHUNK bytes. Done means all of it
      is in the file; -1 means that some number of whole chunks is. `steps` are the volumes the transactions
      go through. */
  method FileWrite(fs: FileSystem, f: OpenFile, ip: InodeRef, addr: seq<Byte>, n: int, writers: set<int>)
    returns (r: Io, ghost written: seq<Byte>, ghost transactions: seq<set<nat>>, ghost steps: seq<Volume>)
    requires Sound(fs.sb, fs.View(ip)) && ip.inum < fs.sb.ninodes && fs.dinodes[ip.inum] == ip.Value()
    requires n <= |addr| && f.off < UINT
    modifies fs`bitmap, fs`blocks, fs`logged, fs`dinodes, ip`addrs, ip`size, f`off
    ensures written <= addr && InChunks(|written|, |transactions|)
    ensures History(fs.sb, steps, transactions, ip.inum, old(f.off), addr, |written|) && steps[0] == old(fs.View(ip))
    ensures r != Panic ==> f.off == old(f.off) + |written| && steps[|steps| - 1] == fs.View(ip)
    ensures r != Panic ==> Sofar(fs.sb, old(fs.View(ip)), fs.View(ip), fs.dinodes, ip.inum, old(f.off), written)
    ensures r == Panic ==> Full(fs.bitmap)
    ensures r.Device? ==> f.writable && ip.typ == T_DEV && written == []
    ensures r.Done? ==> f.writable && r.n == n == |written|
    ensures r == Err && f.writable && n >= 0 ==> |written| < n && exists q: nat :: |written| == q * CHUNK
    ensures r == Err && f.writable && n >= 0 && ip.typ != T_DEV ==>
      f.off > ip.size || f.off + ChunkLength(n - |written|) > MAXFILE * BSIZE
  {
    written, transactions, steps := [], [], [fs.View(ip)];
    if !f.writable {
      HistoryStarts(fs.sb, fs.View(ip), ip.inum, f.off, addr);
      return Err, written, transactions, steps;
    }
    var i;
    r, i, written, transactions, steps := WriteLoop(fs, f, ip, addr, n, writers);
    if r.Done? {
      r := if i == n then Done(n) else Err;
    }
  }

  lemma NextPiece(c: seq<Byte>, a: nat, b: nat)
    requires a <= b <= |c|
    ensures c[..b] == c[..a] + c[a..b]
  {
  }

  function ChunkLength(left: int): (n1: int)
    requires left > 0
    ensures 0 < n1 <= left && n1 <= CHUNK && (n1 < left ==> n1 == CHUNK)
  {
    if left > CHUNK then CHUNK else left
  }

  /** n bytes take q chunks, the last of them perhaps short. */
  predicate InChunks(n: nat, q: nat)
  {
    n <= q * CHUNK && (q == 0 || (q - 1) * CHUNK < n)
  }

  /** filewrite's loop, which stops early if writei fails. */
  method WriteLoop(fs: FileSystem, f: OpenFile, ip: InodeRef, addr: seq<Byte>, n: int, writers: set<int>)
    returns (r: Io, i: nat, ghost written: seq<Byte>, ghost transactions: seq<set<nat>>, ghost steps: seq<Volume>)
    requires Sound(fs.sb, fs.View(ip)) && ip.inum < fs.sb.ninodes && fs.dinodes[ip.inum] == ip.Value()
    requires n <= |addr| && f.off < UINT
    modifies fs`bitmap, fs`blocks, fs`logged, fs`dinodes, ip`addrs, ip`size, f`off
    ensures i <= |addr| && written == addr[..i] && (i <= n || i == 0) && InChunks(i, |transactions|)
    ensures History(fs.sb, steps, transactions, ip.inum, old(f.off), addr, i) && steps[0] == old(fs.View(ip))
    ensures r != Panic ==> f.off == old(f.off) + i && steps[|steps| - 1] == fs.View(ip)
    ensures r != Panic ==> Sofar(fs.sb, old(fs.View(ip)), fs.View(ip), fs.dinodes, ip.inum, old(f.off), written)
    ensures r == Panic ==> Full(fs.bitmap)
    ensures r.Device? ==> ip.typ == T_DEV && i == 0 < n
    ensures r.Done? ==> i >= n
    ensures r == Err ==> i < n && exists q: nat :: i == q * CHUNK
    ensures r == Err && ip.typ != T_DEV ==> f.off > ip.size || f.off + ChunkLength(n - i) > MAXFILE * BSIZE
  {
    ghost var v0, off0 := fs.View(ip), f.off;
    i, r, transactions, steps := 0, Done(0), [], [v0];
    ghost var v, d := v0, fs.dinodes;
    assert d == v.inodes;
    GoingStarts(fs.sb, v0, d, ip.inum, off0, addr);
    while i < n && r.Done?
      invariant Going(fs.sb, v0, v, d, ip.inum, off0, addr, i, steps, transactions)
      invariant r != Panic ==> fs.View(ip) == v && fs.dinodes == d
      invariant f.off == off0 + i < UINT && (i <= n || i == 0) && ChunksAt(i, n, |transactions|)
      invariant (i > 0 ==> ip.typ != T_DEV) && (r.Device? ==> ip.typ == T_DEV && i == 0) && (!r.Done? ==> i < n)
      invariant r == Panic ==> Full(fs.bitmap)
      invariant r == Err && ip.typ != T_DEV ==> f.off > ip.size || f.off + ChunkLength(n - i) > MAXFILE * BSIZE
      decreases n - i, r.Done?
    {
      var i' := i + ChunkLength(n - i);
      ChunksNext(i, n, i', |transactions|, |transactions| + 1);
      r, steps, transactions := WriteChunk(fs, f, ip, addr, i, i', writers, v0, off0, steps, transactions);
      if r.Done? {
        i, v, d := i', fs.View(ip), fs.dinodes;
      }
    }
    written := addr[..i];
  }

  /** After q transactions i bytes of n are written: whole chunks unless it is all of them. */
  predicate ChunksAt(i: nat, n: int, q: nat)
  {
    InChunks(i, q) && (i < n ==> i == q * CHUNK)
  }

  lemma ChunksNext(i: nat, n: int, i': nat, q: nat, q': nat)
    requires ChunksAt(i, n, q) && i < n && i' == i + ChunkLength(n - i) && q' == q + 1
    ensures ChunksAt(i', n, q') && i == q * CHUNK < i' <= i + CHUNK && i' <= n
  {
  }
}
