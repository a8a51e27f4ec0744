/** A volume on which one chunk of filewrite does log MAXOPBLOCKS blocks: the disk is full but for four blocks, whose
    bits are in four different blocks of the bitmap. Inode 1 is a file of 10 blocks, and inodes 2 to 91 are files of
    the largest size, thirty between each two of the free blocks. */
module TenBlocks {
  import opened Volume
  import opened Fs
  import opened Params
  import F = FileWrite

  const DATA := 49
  const SIZE := 12753
  const SB := Super(SIZE, 92, 33, 45, DATA)
  const SPAN := 4231   // a free block and thirty largest files of SLOTS blocks

  predicate IsFree(b: int)
  {
    b == 59 || b == 59 + SPAN || b == 59 + 2 * SPAN || b == 59 + 3 * SPAN
  }

  /** The block in slot k of file i >= 2. */
  function At(i: int, k: int): (b: int)
  {
    60 + SLOTS * (i - 2) + (i - 2) / 30 + k
  }

  /** Each of the files has blocks of its own, between two free ones. */
  lemma AtPlace(i: int, k: int)
    requires 2 <= i < 92 && 0 <= k < SLOTS
    ensures 60 <= At(i, k) < SIZE - 1 && !IsFree(At(i, k))
  {
    var j, g := (i - 2) / 30, (i - 2) % 30;
    assert At(i, k) == 60 + SPAN * j + SLOTS * g + k;
    assert 0 <= SLOTS * g + k < SPAN - 1;
  }

  lemma AtApart(i: int, k: int, i': int, k': int)
    requires 2 <= i < i' < 92 && 0 <= k < SLOTS && 0 <= k' < SLOTS
    ensures At(i, k) < At(i', k')
  {
    assert SLOTS * (i - 2) + SLOTS <= SLOTS * (i' - 2);
  }

  /** And every other block is one of theirs. */
  lemma AtAll(b: int) returns (i: int, k: int)
    requires 60 <= b < SIZE && !IsFree(b)
    ensures 2 <= i < 92 && 0 <= k < SLOTS && At(i, k) == b
  {
    var j, r := (b - 60) / SPAN, (b - 60) % SPAN;
    assert r < SPAN - 1 && j <= 2;
    i, k := 2 + 30 * j + r / SLOTS, r % SLOTS;
    assert (i - 2) / 30 == j;
  }

  /** An indirect block whose entries are a, a + 1 and so on. */
  function Entries(a: nat): (b: Block)
    requires a < 0x8000
    ensures |b| == BSIZE
  {
    seq(BSIZE, t requires 0 <= t < BSIZE =>
      if t % 4 == 0 then ((a + t / 4) % 0x100) as Byte else if t % 4 == 1 then ((a + t / 4) / 0x100) as Byte else 0)
  }

  lemma EntriesAt(a: nat, j: nat)
    requires a < 0x8000 && j < NINDIRECT
    ensures Word(Entries(a), j) == a + j
  {
  }

  function Addrs(i: int): (addrs: seq<nat>)
    requires 0 <= i < 92
    ensures |addrs| == NDIRECT + 1
  {
    seq(NDIRECT + 1, k requires 0 <= k <= NDIRECT =>
      if i == 0 then 0 else if i == 1 then (if k < 10 then DATA + k else 0) else At(i, k) as nat)
  }

  function FileSize(i: int): (n: nat)
  {
    if i == 0 then 0 else if i == 1 then 9 * BSIZE + 1 else MAXFILE * BSIZE
  }

  function Contained(b: int): (data: Block)
    requires 0 <= b < SIZE
  {
    if b < 60 || IsFree(b) then ZeroBlock()
    else
      var r := (b - 60) % SPAN;
      if r % SLOTS == NDIRECT then Entries(b + 1) else ZeroBlock()
  }

  function Crowded(): (v: Volume)
  {
    Volume(seq(SIZE, b => !IsFree(b)), seq(SIZE, b requires 0 <= b < SIZE => Contained(b)),
           seq(92, i requires 0 <= i < 92 => Inode(2, 0, 1, FileSize(i), Addrs(i))))
  }

  lemma CrowdedFormed()
    ensures WellFormed(SB, Crowded())
  {
    forall i | 0 <= i < 92
      ensures Addrs(i)[NDIRECT] < SIZE
    {
      if i >= 2 {
        AtPlace(i, NDIRECT);
      }
    }
  }

  lemma AtRemainder(i: nat)
    requires 2 <= i < 92
    ensures (At(i, NDIRECT) - 60) % SPAN % SLOTS == NDIRECT
  {
    var j, g := (i - 2) / 30, (i - 2) % 30;
    assert At(i, NDIRECT) - 60 == SPAN * j + (SLOTS * g + NDIRECT);
    assert (At(i, NDIRECT) - 60) % SPAN == SLOTS * g + NDIRECT;
  }

  /** The slots, in closed form. */
  function SlotIn(i: nat, k: nat): (b: int)
  {
    if i == 0 then 0 else if i == 1 then (if k < 10 then DATA + k else 0) else At(i, k)
  }

  lemma CrowdedSlot(i: nat, k: nat)
    requires WellFormed(SB, Crowded()) && i < 92 && k < SLOTS
    ensures Slot(SB, Crowded(), i, k) == SlotIn(i, k)
  {
    if i >= 2 && k > NDIRECT {
      var b := At(i, NDIRECT);
      AtPlace(i, NDIRECT);
      AtRemainder(i);
      assert Crowded().blocks[b] == Entries(b + 1);
      EntriesAt(b + 1, k - NDIRECT - 1);
    }
  }

  lemma SlotInApart(i: nat, k: nat, i': nat, k': nat)
    requires i < 92 && k < SLOTS && i' < 92 && k' < SLOTS && SlotIn(i, k) == SlotIn(i', k') != 0
    ensures i == i' && k == k'
  {
    if i >= 2 {
      AtPlace(i, k);
    }
    if i' >= 2 {
      AtPlace(i', k');
    }
    if 2 <= i < i' {
      AtApart(i, k, i', k');
    } else if 2 <= i' < i {
      AtApart(i', k', i, k);
    }
  }

  lemma CrowdedMarked()
    requires WellFormed(SB, Crowded())
    ensures Marked(SB, Crowded()) && Unshared(SB, Crowded())
  {
    var v := Crowded();
    forall i, k | 0 <= i < 92 && 0 <= k < SLOTS && Slot(SB, v, i, k) != 0
      ensures DATA <= Slot(SB, v, i, k) < SIZE && v.bitmap[Slot(SB, v, i, k)]
    {
      CrowdedSlot(i, k);
      if i >= 2 {
        AtPlace(i, k);
      }
    }
    forall i, k, i', k' {:trigger Both(i, k, i', k')} |
      0 <= i < 92 && 0 <= k < SLOTS && 0 <= i' < 92 && 0 <= k' < SLOTS && Both(i, k, i', k')
        && Slot(SB, v, i, k) == Slot(SB, v, i', k') != 0
      ensures i == i' && k == k'
    {
      CrowdedSlot(i, k);
      CrowdedSlot(i', k');
      SlotInApart(i, k, i', k');
    }
  }

  lemma CrowdedAccounted()
    requires WellFormed(SB, Crowded())
    ensures Accounted(SB, Crowded())
  {
    var v := Crowded();
    forall b | DATA <= b < SIZE && v.bitmap[b]
      ensures exists i, k :: Owner(SB, v, i, k, b)
    {
      if b < DATA + 10 {
        CrowdedSlot(1, b - DATA);
        assert Owner(SB, v, 1, b - DATA, b);
      } else {
        var i, k := AtAll(b);
        CrowdedSlot(i, k);
        assert Owner(SB, v, i, k, b);
      }
    }
  }

  lemma CrowdedHoleFree(i: nat)
    requires WellFormed(SB, Crowded()) && i < 92
    ensures HoleFree(SB, Crowded(), i)
  {
    var v := Crowded();
    assert BlocksFor(FileSize(i)) == if i == 0 then 0 else if i == 1 then 10 else MAXFILE;
    forall bn | 0 <= bn < MAXFILE
      ensures Slot(SB, v, i, DataSlot(bn)) != 0 <==> bn < BlocksFor(FileSize(i))
    {
      CrowdedSlot(i, DataSlot(bn));
      if i >= 2 {
        AtPlace(i, DataSlot(bn));
      }
    }
    CrowdedSlot(i, NDIRECT);
    if i >= 2 {
      AtPlace(i, NDIRECT);
    }
  }

  lemma CrowdedSound()
    ensures Sound(SB, Crowded()) && FreeBlocks(Crowded().bitmap) == {59, 59 + SPAN, 59 + 2 * SPAN, 59 + 3 * SPAN}
    ensures FreeCount(Crowded().bitmap) == 4
  {
    CrowdedFormed();
    CrowdedMarked();
    CrowdedAccounted();
    forall i | 0 <= i < 92
      ensures HoleFree(SB, Crowded(), i)
    {
      CrowdedHoleFree(i);
    }
    F.FourDistinct(59, 59 + SPAN, 59 + 2 * SPAN, 59 + 3 * SPAN);
    assert FreeBlocks(Crowded().bitmap) == {59, 59 + SPAN, 59 + 2 * SPAN, 59 + 3 * SPAN};
  }

  /** A block that the file has after a write and had not before was free. */
  lemma NewWasFree(v: Volume, v': Volume, i: nat, k: nat)
    requires Owned(SB, v) && Owned(SB, v') && SlotsKept(SB, v, v', i) && k < SLOTS && Slot(SB, v, i, k) == 0
    requires Slot(SB, v', i, k) != 0
    ensures !v.bitmap[Slot(SB, v', i, k)]
  {
    var b := Slot(SB, v', i, k);
    if v.bitmap[b] {
      var i', k' :| Owner(SB, v, i', k', b);
      assert KeptSlot(SB, v, v', i, i', k');
      assert Both(i, k, i', k');
    }
  }

  /** The four new slots after the write are the four free blocks. */
  lemma NewSlots(v': Volume)
    requires Sound(SB, v') && SlotsKept(SB, Crowded(), v', 1) && Allocated(SB, v', 1, 13)
    ensures forall k, k' :: 10 <= k < k' <= 13 ==> F.MapOf(SB, v', 1, k) != F.MapOf(SB, v', 1, k')
  {
    CrowdedSound();
    forall k | 10 <= k <= 13
      ensures IsFree(Slot(SB, v', 1, k))
    {
      CrowdedSlot(1, k);
      assert (k < 12 ==> k == DataSlot(k)) && (k > 12 ==> k == DataSlot(k - 1));
      NewWasFree(Crowded(), v', 1, k);
    }
    forall k, k' | 10 <= k < k' <= 13
      ensures F.MapOf(SB, v', 1, k) != F.MapOf(SB, v', 1, k')
    {
      assert IsFree(Slot(SB, v', 1, k)) && IsFree(Slot(SB, v', 1, k'));
      assert Both(1, k, 1, k');
    }
  }

  lemma TenLogged(v': Volume, l': set<nat>, d': seq<Inode>, src: seq<Byte>)
    requires Sound(SB, Crowded()) && |src| == F.CHUNK
    requires Wrote(SB, Crowded(), {}, Crowded().inodes, v', l', d', 1, 9 * BSIZE + 1, src)
    ensures |l'| == MAXOPBLOCKS
  {
    SpliceLength(Contents(SB, Crowded(), 1), 9 * BSIZE + 1, src);
    assert v'.inodes[1].size == |Contents(SB, v', 1)| == 12 * BSIZE + 1;
    assert HoleFree(SB, v', 1) && BlocksFor(12 * BSIZE + 1) == 13;
    NewSlots(v');
    assert F.BitmapBeforeData(SB, 1);
    F.TenIsReached(SB, v', 1);
    assert l' == Logged(SB, v', 1, 9 * BSIZE + 1, F.CHUNK, 9 * BSIZE + 1);
  }

  /** The file system on that volume, and its file. */
  method Open() returns (fs: FileSystem, ip: InodeRef)
    ensures fresh(fs) && fresh(ip) && fs.sb == SB && fs.View(ip) == Crowded() && fs.dinodes == Crowded().inodes
    ensures fs.logged == {}
    ensures ip.inum == 1 && ip.typ != T_DEV && ip.size == 9 * BSIZE + 1 && fs.bitmap == Crowded().bitmap
  {
    CrowdedFormed();
    fs := new FileSystem(SB, Crowded());
    ip := new InodeRef(1, Crowded().inodes[1]);
  }

  /** The write: a full chunk after the file's last byte succeeds and logs ten blocks. */
  method TenAreLogged(src: seq<Byte>) returns (fs: FileSystem, r: Io)
    requires |src| == F.CHUNK
    ensures r == Done(F.CHUNK) && |fs.logged| == MAXOPBLOCKS
  {
    CrowdedSound();
    var ip;
    fs, ip := Open();
    assert WriteNeeds(9 * BSIZE + 1, 9 * BSIZE + 1 + |src|) == 4;
    assert Crowded().inodes[1] == ip.Value();
    r := fs.Writei(ip, src, 9 * BSIZE + 1, {});
    TenLogged(fs.View(ip), fs.logged, fs.dinodes, src);
  }
}
