/** What the file system's disk structures mean: which block each slot of an inode points to, who owns
    a block, and which bytes a file holds. */
module Volume {
  import opened Params

  const BSIZE := 512
  const NDIRECT := 12
  const NINDIRECT := 128      // BSIZE / sizeof(uint)
  const MAXFILE := 140        // NDIRECT + NINDIRECT
  const SLOTS := 141          // 12 direct slots, the indirect pointer, 128 indirect entries
  const BPB := 4096           // bitmap bits per block
  const IPB := 8              // inodes per block

  newtype Byte = x: int | 0 <= x < 256
  type Block = seq<Byte>

  function ZeroBlock(): (b: Block)
    ensures |b| == BSIZE
  {
    seq(BSIZE, _ => 0)
  }

  /** A disk inode; type 0 means free. */
  datatype Inode = Inode(typ: int, major: int, nlink: int, size: nat, addrs: seq<nat>)

  /** The part of the super block the code reads, and the first data block. */
  datatype Super = Super(size: nat, ninodes: nat, inodestart: nat, bmapstart: nat, datastart: nat)

  datatype Volume = Volume(bitmap: seq<bool>, blocks: seq<Block>, inodes: seq<Inode>)

  // Blocks read as arrays of uint, as the indirect block is.

  function Word(b: Block, j: nat): (w: nat)
    requires |b| == BSIZE && j < NINDIRECT
  {
    b[4 * j] as int + 0x100 * b[4 * j + 1] as int + 0x1_0000 * b[4 * j + 2] as int + 0x100_0000 * b[4 * j + 3] as int
  }

  function SetWord(b: Block, j: nat, w: nat): (b': Block)
    requires |b| == BSIZE && j < NINDIRECT && w < UINT
    ensures |b'| == BSIZE && Word(b', j) == w
    ensures forall k :: 0 <= k < NINDIRECT && k != j ==> Word(b', k) == Word(b, k)
  {
    var w1 := w / 0x100;
    var w2 := w1 / 0x100;
    b[4 * j := (w % 0x100) as Byte][4 * j + 1 := (w1 % 0x100) as Byte]
     [4 * j + 2 := (w2 % 0x100) as Byte][4 * j + 3 := (w2 / 0x100) as Byte]
  }

  // Slots and owners.

  predicate WellFormed(sb: Super, v: Volume)
  {
    && 0 < sb.datastart <= sb.size < UINT
    && |v.bitmap| == sb.size && |v.blocks| == sb.size && |v.inodes| == sb.ninodes
    && (forall b :: 0 <= b < |v.blocks| ==> |v.blocks[b]| == BSIZE)
    && (forall i :: 0 <= i < |v.inodes| ==> |v.inodes[i].addrs| == NDIRECT + 1 && v.inodes[i].addrs[NDIRECT] < sb.size)
  }

  /** The block number in slot k of inode i, 0 if none: slots 0..11 are the direct blocks, slot 12 the
      indirect block, slots 13.. the entries of the indirect block. */
  function Slot(sb: Super, v: Volume, i: nat, k: nat): (b: nat)
    requires WellFormed(sb, v) && i < sb.ninodes && k < SLOTS
  {
    if k <= NDIRECT then v.inodes[i].addrs[k]
    else if v.inodes[i].addrs[NDIRECT] == 0 then 0
    else Word(v.blocks[v.inodes[i].addrs[NDIRECT]], k - NDIRECT - 1)
  }

  /** Slot of the bn-th block of a file. */
  function DataSlot(bn: nat): (k: nat)
    ensures bn < MAXFILE ==> k < SLOTS
  {
    if bn < NDIRECT then bn else bn + 1
  }

  ghost predicate Owner(sb: Super, v: Volume, i: nat, k: nat, b: nat)
    requires WellFormed(sb, v)
  {
    i < sb.ninodes && k < SLOTS && Slot(sb, v, i, k) == b
  }

  /** Every slot in use names a data block whose bitmap bit is set. */
  ghost predicate Marked(sb: Super, v: Volume)
    requires WellFormed(sb, v)
  {
    forall i, k :: 0 <= i < sb.ninodes && 0 <= k < SLOTS && Slot(sb, v, i, k) != 0 ==>
      sb.datastart <= Slot(sb, v, i, k) < sb.size && v.bitmap[Slot(sb, v, i, k)]
  }

  /** Names a pair of slots, to say which instance of Unshared a proof uses. */
  predicate Both(i: nat, k: nat, i': nat, k': nat)
  {
    i + k + i' + k' >= 0
  }

  /** No two slots, of one inode or of two, name the same block. */
  ghost predicate Unshared(sb: Super, v: Volume)
    requires WellFormed(sb, v)
  {
    forall i, k, i', k' {:trigger Both(i, k, i', k')} ::
      0 <= i < sb.ninodes && 0 <= k < SLOTS && 0 <= i' < sb.ninodes && 0 <= k' < SLOTS && Both(i, k, i', k')
      && Slot(sb, v, i, k) == Slot(sb, v, i', k') != 0
      ==> i == i' && k == k'
  }

  /** A set bit of the bitmap is a metadata block's, or some slot's. */
  ghost predicate Accounted(sb: Super, v: Volume)
    requires WellFormed(sb, v)
  {
    && (forall b :: 0 <= b < sb.datastart ==> v.bitmap[b])
    && (forall b :: sb.datastart <= b < sb.size && v.bitmap[b] ==> exists i, k :: Owner(sb, v, i, k, b))
  }

  /** A data block's bit is set if and only if exactly one slot of one inode owns the block. */
  ghost predicate Owned(sb: Super, v: Volume)
  {
    WellFormed(sb, v) && Marked(sb, v) && Unshared(sb, v) && Accounted(sb, v)
  }

  // Holes and contents.

  function BlocksFor(size: nat): (n: nat)
    ensures n * BSIZE >= size && (n == 0 || (n - 1) * BSIZE < size)
  {
    (size + BSIZE - 1) / BSIZE
  }

  /** The file's first n blocks are allocated, and no other, and the indirect block only if needed. */
  ghost predicate Allocated(sb: Super, v: Volume, i: nat, n: nat)
    requires WellFormed(sb, v) && i < sb.ninodes
  {
    && n <= MAXFILE
    && (forall bn :: 0 <= bn < MAXFILE ==> (Slot(sb, v, i, DataSlot(bn)) != 0 <==> bn < n))
    && (Slot(sb, v, i, NDIRECT) != 0 <==> n > NDIRECT)
  }

  ghost predicate HoleFree(sb: Super, v: Volume, i: nat)
    requires WellFormed(sb, v) && i < sb.ninodes
  {
    v.inodes[i].size <= MAXFILE * BSIZE && Allocated(sb, v, i, BlocksFor(v.inodes[i].size))
  }

  /** The invariant of the volume between operations. */
  ghost predicate Sound(sb: Super, v: Volume)
  {
    Owned(sb, v) && forall i :: 0 <= i < sb.ninodes ==> HoleFree(sb, v, i)
  }

  ghost function FileByte(sb: Super, v: Volume, i: nat, x: nat): (c: Byte)
    requires Owned(sb, v) && i < sb.ninodes && x < MAXFILE * BSIZE
  {
    v.blocks[Slot(sb, v, i, DataSlot(x / BSIZE))][x % BSIZE]
  }

  ghost function Contents(sb: Super, v: Volume, i: nat): (s: seq<Byte>)
    requires Owned(sb, v) && i < sb.ninodes && HoleFree(sb, v, i)
    ensures |s| == v.inodes[i].size
  {
    seq(v.inodes[i].size, x requires 0 <= x < v.inodes[i].size => FileByte(sb, v, i, x))
  }

  // Claiming and releasing blocks.

  /** v' differs from v in its slots only at slot k of inode i, which went from empty to block r, and in
      its bitmap only at r, which was free. */
  ghost predicate Claims(sb: Super, v: Volume, v': Volume, i: nat, k: nat, r: nat)
  {
    && WellFormed(sb, v) && WellFormed(sb, v') && i < sb.ninodes && k < SLOTS
    && sb.datastart <= r < sb.size && !v.bitmap[r] && v'.bitmap == v.bitmap[r := true]
    && Slot(sb, v, i, k) == 0 && Slot(sb, v', i, k) == r
    && forall i', k' :: 0 <= i' < sb.ninodes && 0 <= k' < SLOTS && (i', k') != (i, k) ==>
         Slot(sb, v', i', k') == Slot(sb, v, i', k')
  }

  /** Apart from that, only block r and the indirect block of i may have changed contents, and no inode
      changed but in its addresses. */
  ghost predicate Grows(sb: Super, v: Volume, v': Volume, i: nat, k: nat, r: nat)
  {
    && Claims(sb, v, v', i, k, r)
    && (forall b :: 0 <= b < sb.size && b != r && (b == 0 || b != v.inodes[i].addrs[NDIRECT]) ==>
        v'.blocks[b] == v.blocks[b])
    && SameMeta(sb, v, v')
  }

  ghost predicate SameMeta(sb: Super, v: Volume, v': Volume)
  {
    && |v.inodes| == |v'.inodes| == sb.ninodes
    && forall j :: 0 <= j < sb.ninodes ==> v'.inodes[j].(addrs := []) == v.inodes[j].(addrs := [])
  }

  /** Every block of every file keeps its place and its contents. */
  ghost predicate KeepsData(sb: Super, v: Volume, v': Volume)
    requires WellFormed(sb, v) && WellFormed(sb, v') && Marked(sb, v)
  {
    forall i, k :: 0 <= i < sb.ninodes && 0 <= k < SLOTS && Slot(sb, v, i, k) != 0 ==>
      Slot(sb, v', i, k) == Slot(sb, v, i, k)
        && (k != NDIRECT ==> v'.blocks[Slot(sb, v, i, k)] == v.blocks[Slot(sb, v, i, k)])
  }

  lemma GrowKeepsData(sb: Super, v: Volume, v': Volume, i: nat, k: nat, r: nat)
    requires Owned(sb, v) && Grows(sb, v, v', i, k, r)
    ensures KeepsData(sb, v, v')
  {
    forall j, k' | 0 <= j < sb.ninodes && 0 <= k' < SLOTS && Slot(sb, v, j, k') != 0
      ensures Slot(sb, v', j, k') == Slot(sb, v, j, k')
      ensures k' != NDIRECT ==> v'.blocks[Slot(sb, v, j, k')] == v.blocks[Slot(sb, v, j, k')]
    {
      assert Both(j, k', i, NDIRECT);
      assert Slot(sb, v, i, NDIRECT) == v.inodes[i].addrs[NDIRECT];
    }
  }

  /** The only slots in use in v' and not in v are the one for block bn of inode i and, if bn needs it,
      the indirect block. */
  ghost predicate OnlyNew(sb: Super, v: Volume, v': Volume, i: nat, bn: nat)
    requires WellFormed(sb, v) && WellFormed(sb, v') && i < sb.ninodes
  {
    && (forall i', k ::
          0 <= i' < sb.ninodes && 0 <= k < SLOTS && Slot(sb, v, i', k) == 0 && Slot(sb, v', i', k) != 0 ==>
          i' == i && (k == DataSlot(bn) || (k == NDIRECT && bn >= NDIRECT)))
    && (bn >= NDIRECT ==> Slot(sb, v', i, NDIRECT) != 0)
  }

  /** What bmap promises of the volume: no block of any file moves or changes, and at most the blocks
      that bn needs are new. */
  ghost predicate Mapped(sb: Super, v: Volume, v': Volume, i: nat, bn: nat)
  {
    && Owned(sb, v) && Owned(sb, v') && i < sb.ninodes && bn < MAXFILE
    && Slot(sb, v', i, DataSlot(bn)) != 0
    && KeepsData(sb, v, v') && SameMeta(sb, v, v') && OnlyNew(sb, v, v', i, bn)
  }

  lemma MapDirect(sb: Super, v: Volume, v': Volume, i: nat, bn: nat, r: nat)
    requires Owned(sb, v) && Owned(sb, v') && bn < NDIRECT && Grows(sb, v, v', i, bn, r)
    ensures Mapped(sb, v, v', i, bn)
  {
    GrowKeepsData(sb, v, v', i, bn, r);
  }

  lemma MapIndirect(sb: Super, v: Volume, v1: Volume, v2: Volume, i: nat, bn: nat, r1: nat, r2: nat)
    requires Owned(sb, v) && Owned(sb, v1) && Owned(sb, v2) && i < sb.ninodes && NDIRECT <= bn < MAXFILE
    requires Slot(sb, v1, i, NDIRECT) != 0 && Slot(sb, v2, i, DataSlot(bn)) != 0
    requires v1 == v || Grows(sb, v, v1, i, NDIRECT, r1)
    requires v2 == v1 || Grows(sb, v1, v2, i, DataSlot(bn), r2)
    ensures Mapped(sb, v, v2, i, bn)
  {
    if v1 != v {
      GrowKeepsData(sb, v, v1, i, NDIRECT, r1);
    }
    if v2 != v1 {
      GrowKeepsData(sb, v1, v2, i, DataSlot(bn), r2);
    }
    assert Slot(sb, v2, i, NDIRECT) == Slot(sb, v1, i, NDIRECT);
  }

  lemma ClaimKeepsOwned(sb: Super, v: Volume, v': Volume, i: nat, k: nat, r: nat)
    requires Owned(sb, v) && Claims(sb, v, v', i, k, r)
    ensures Owned(sb, v')
  {
    forall b | sb.datastart <= b < sb.size && v'.bitmap[b]
      ensures exists i', k' :: Owner(sb, v', i', k', b)
    {
      if b == r {
        assert Owner(sb, v', i, k, b);
      } else {
        var i', k' :| Owner(sb, v, i', k', b);
        assert Owner(sb, v', i', k', b);
      }
    }
  }

  /** Storing a free block's number in a direct slot, or as the indirect block after zeroing it. */
  lemma ClaimInode(sb: Super, v: Volume, i: nat, k: nat, r: nat)
    requires Owned(sb, v) && i < sb.ninodes && k <= NDIRECT && Slot(sb, v, i, k) == 0
    requires sb.datastart <= r < sb.size && !v.bitmap[r]
    ensures Grows(sb, v, Volume(v.bitmap[r := true], v.blocks[r := ZeroBlock()],
              v.inodes[i := v.inodes[i].(addrs := v.inodes[i].addrs[k := r])]), i, k, r)
  {
    var v' := Volume(v.bitmap[r := true], v.blocks[r := ZeroBlock()],
      v.inodes[i := v.inodes[i].(addrs := v.inodes[i].addrs[k := r])]);
    assert WellFormed(sb, v');
    forall i', k' | 0 <= i' < sb.ninodes && 0 <= k' < SLOTS && (i', k') != (i, k)
      ensures Slot(sb, v', i', k') == Slot(sb, v, i', k')
    {
      assert Slot(sb, v, i', NDIRECT) != r;
      if k' > NDIRECT && i' == i && k == NDIRECT {
        assert Word(ZeroBlock(), k' - NDIRECT - 1) == 0;
      }
    }
  }

  /** Storing a free block's number in an entry of the indirect block. */
  lemma ClaimEntry(sb: Super, v: Volume, i: nat, j: nat, r: nat)
    requires Owned(sb, v) && i < sb.ninodes && j < NINDIRECT && Slot(sb, v, i, NDIRECT) != 0
    requires Slot(sb, v, i, NDIRECT + 1 + j) == 0
    requires sb.datastart <= r < sb.size && !v.bitmap[r]
    ensures var a := v.inodes[i].addrs[NDIRECT];
      Grows(sb, v, v.(bitmap := v.bitmap[r := true],
                       blocks := v.blocks[r := ZeroBlock()][a := SetWord(v.blocks[a], j, r)]), i, NDIRECT + 1 + j, r)
  {
    var a := v.inodes[i].addrs[NDIRECT];
    assert Slot(sb, v, i, NDIRECT) == a;
    var v' := v.(bitmap := v.bitmap[r := true],
                 blocks := v.blocks[r := ZeroBlock()][a := SetWord(v.blocks[a], j, r)]);
    assert WellFormed(sb, v');
    forall i', k' | 0 <= i' < sb.ninodes && 0 <= k' < SLOTS && (i', k') != (i, NDIRECT + 1 + j)
      ensures Slot(sb, v', i', k') == Slot(sb, v, i', k')
    {
      assert Slot(sb, v, i', NDIRECT) != r;
      assert Both(i', NDIRECT, i, NDIRECT);
    }
  }

  /** Inode i gives up every block it owns: its slots are empty, and exactly those bits are cleared. */
  ghost predicate Releases(sb: Super, v: Volume, v': Volume, i: nat)
  {
    && WellFormed(sb, v) && WellFormed(sb, v') && i < sb.ninodes
    && (forall k :: 0 <= k < SLOTS ==> Slot(sb, v', i, k) == 0)
    && (forall i', k :: 0 <= i' < sb.ninodes && 0 <= k < SLOTS && i' != i ==> Slot(sb, v', i', k) == Slot(sb, v, i', k))
    && (forall b :: 0 <= b < sb.size ==> (v'.bitmap[b] <==> v.bitmap[b] && !OwnedIn(sb, v, i, 0, SLOTS, b)))
  }

  /** One of the slots lo..hi of inode i names block b. */
  ghost predicate OwnedIn(sb: Super, v: Volume, i: nat, lo: nat, hi: nat, b: nat)
    requires WellFormed(sb, v)
  {
    b != 0 && exists k :: lo <= k < hi && Owner(sb, v, i, k, b)
  }

  /** Clearing the bit of slot k, if it is in use, extends the cleared slots lo..k by one; and the bit
      was still set if slot k is outside what has been cleared. */
  lemma ReleaseOne(sb: Super, v: Volume, i: nat, lo: nat, k: nat, b: nat)
    requires Owned(sb, v) && i < sb.ninodes && lo <= k < SLOTS
    ensures OwnedIn(sb, v, i, lo, k + 1, b) <==> OwnedIn(sb, v, i, lo, k, b) || (b != 0 && Slot(sb, v, i, k) == b)
  {
    if b != 0 && Slot(sb, v, i, k) == b {
      assert Owner(sb, v, i, k, b);
    }
  }

  /** The state itrunc leaves: all addresses 0, and cleared bits for the direct slots, the indirect
      entries and the indirect block itself. */
  lemma ReleasedAll(sb: Super, v: Volume, v': Volume, i: nat)
    requires Owned(sb, v) && i < sb.ninodes && |v'.bitmap| == sb.size && v'.blocks == v.blocks
    requires |v'.inodes| == sb.ninodes && v'.inodes[i].addrs == seq(NDIRECT + 1, _ => 0)
    requires forall j :: 0 <= j < sb.ninodes && j != i ==> v'.inodes[j] == v.inodes[j]
    requires forall x :: 0 <= x < sb.size ==>
      (v'.bitmap[x] <==> v.bitmap[x] && !OwnedIn(sb, v, i, 0, NDIRECT, x) && !OwnedIn(sb, v, i, NDIRECT + 1, SLOTS, x)
                         && !(x != 0 && Slot(sb, v, i, NDIRECT) == x))
    ensures Releases(sb, v, v', i)
  {
    forall x | 0 <= x < sb.size
      ensures OwnedIn(sb, v, i, 0, SLOTS, x) <==>
        OwnedIn(sb, v, i, 0, NDIRECT, x) || OwnedIn(sb, v, i, NDIRECT + 1, SLOTS, x)
          || (x != 0 && Slot(sb, v, i, NDIRECT) == x)
    {
      if x != 0 && Slot(sb, v, i, NDIRECT) == x {
        assert Owner(sb, v, i, NDIRECT, x);
      }
    }
  }

  lemma ReleaseKeepsOwned(sb: Super, v: Volume, v': Volume, i: nat)
    requires Owned(sb, v) && Releases(sb, v, v', i)
    ensures Owned(sb, v')
  {
    forall b | sb.datastart <= b < sb.size && v'.bitmap[b]
      ensures exists i', k' :: Owner(sb, v', i', k', b)
    {
      var i', k' :| Owner(sb, v, i', k', b);
      assert Owner(sb, v', i', k', b);
    }
    assert forall b :: 0 <= b < sb.datastart ==> !OwnedIn(sb, v, i, 0, SLOTS, b);
    forall i', k | 0 <= i' < sb.ninodes && 0 <= k < SLOTS && Slot(sb, v', i', k) != 0
      ensures v'.bitmap[Slot(sb, v', i', k)]
    {
      assert forall k' :: 0 <= k' < SLOTS && Owner(sb, v, i, k', Slot(sb, v, i', k)) ==> Both(i', k, i, k');
    }
  }

  /** Within one block, the bytes of the file are the bytes of the block. */
  lemma ContentsPiece(sb: Super, v: Volume, i: nat, at: nat, m: nat)
    requires Owned(sb, v) && i < sb.ninodes && HoleFree(sb, v, i)
    requires at + m <= v.inodes[i].size && 0 < m <= BSIZE - at % BSIZE
    ensures at / BSIZE < MAXFILE && Slot(sb, v, i, DataSlot(at / BSIZE)) != 0
    ensures v.blocks[Slot(sb, v, i, DataSlot(at / BSIZE))][at % BSIZE..at % BSIZE + m] == Contents(sb, v, i)[at..at + m]
  {
    assert at / BSIZE < BlocksFor(v.inodes[i].size);
    var piece := v.blocks[Slot(sb, v, i, DataSlot(at / BSIZE))][at % BSIZE..at % BSIZE + m];
    forall x | 0 <= x < m
      ensures piece[x] == Contents(sb, v, i)[at + x]
    {
      PieceByte(sb, v, i, at, x);
    }
  }

  lemma PieceByte(sb: Super, v: Volume, i: nat, at: nat, x: nat)
    requires Owned(sb, v) && i < sb.ninodes && at + x < MAXFILE * BSIZE && x < BSIZE - at % BSIZE
    requires Slot(sb, v, i, DataSlot(at / BSIZE)) != 0
    ensures FileByte(sb, v, i, at + x) == v.blocks[Slot(sb, v, i, DataSlot(at / BSIZE))][at % BSIZE + x]
  {
    assert (at + x) / BSIZE == at / BSIZE && (at + x) % BSIZE == at % BSIZE + x;
  }

  // Writing file contents.

  /** No slot of any other inode changed, nor any block of its file. */
  ghost predicate OthersKept(sb: Super, v: Volume, v': Volume, i: nat)
    requires Owned(sb, v) && Owned(sb, v')
  {
    && (forall i', k :: 0 <= i' < sb.ninodes && 0 <= k < SLOTS && i' != i ==> Slot(sb, v', i', k) == Slot(sb, v, i', k))
    && (forall i', k :: 0 <= i' < sb.ninodes && 0 <= k < SLOTS && i' != i && k != NDIRECT && Slot(sb, v, i', k) != 0 ==>
          v'.blocks[Slot(sb, v, i', k)] == v.blocks[Slot(sb, v, i', k)])
  }

  /** No slot of inode i in use changed. */
  ghost predicate OwnKept(sb: Super, v: Volume, v': Volume, i: nat)
    requires WellFormed(sb, v) && WellFormed(sb, v') && i < sb.ninodes
  {
    forall k :: 0 <= k < SLOTS && Slot(sb, v, i, k) != 0 ==> Slot(sb, v', i, k) == Slot(sb, v, i, k)
  }

  /** If a file has as many blocks as before, its inode has the same addresses. */
  lemma SameLengthSameAddrs(sb: Super, v: Volume, v': Volume, i: nat, n: nat)
    requires WellFormed(sb, v) && WellFormed(sb, v') && i < sb.ninodes && OwnKept(sb, v, v', i)
    requires Allocated(sb, v, i, n) && Allocated(sb, v', i, n)
    ensures v'.inodes[i].addrs == v.inodes[i].addrs
  {
    forall k | 0 <= k <= NDIRECT
      ensures v'.inodes[i].addrs[k] == v.inodes[i].addrs[k]
    {
      assert Slot(sb, v, i, k) == v.inodes[i].addrs[k] && Slot(sb, v', i, k) == v'.inodes[i].addrs[k];
      if k < NDIRECT {
        assert DataSlot(k) == k;
      }
    }
  }

  function Max(a: nat, b: nat): (m: nat)
  {
    if a < b then b else a
  }

  /** After bmap of the block just past the allocated ones, or of one of them, the file has no hole. */
  lemma MapExtends(sb: Super, v: Volume, v': Volume, i: nat, n: nat, bn: nat)
    requires Mapped(sb, v, v', i, bn) && Allocated(sb, v, i, n) && bn <= n
    ensures Allocated(sb, v', i, Max(n, bn + 1))
    ensures OthersKept(sb, v, v', i)
    ensures forall x :: 0 <= x < n * BSIZE ==> FileByte(sb, v', i, x) == FileByte(sb, v, i, x)
  {
    forall b | 0 <= b < MAXFILE
      ensures Slot(sb, v', i, DataSlot(b)) != 0 <==> b < Max(n, bn + 1)
    {
      assert DataSlot(b) != NDIRECT;
      assert Slot(sb, v, i, DataSlot(b)) != 0 <==> b < n;
    }
    forall x | 0 <= x < n * BSIZE
      ensures FileByte(sb, v', i, x) == FileByte(sb, v, i, x)
    {
      assert x / BSIZE < n;
      assert Slot(sb, v, i, DataSlot(x / BSIZE)) != 0;
    }
  }

  /** Changing the contents of a file's block bn changes the file's bytes there and nothing else. */
  lemma PatchBlock(sb: Super, v: Volume, v': Volume, i: nat, bn: nat, data: Block)
    requires Owned(sb, v) && i < sb.ninodes && bn < MAXFILE && Slot(sb, v, i, DataSlot(bn)) != 0 && |data| == BSIZE
    requires v' == v.(blocks := v.blocks[Slot(sb, v, i, DataSlot(bn)) := data])
    ensures Owned(sb, v') && OthersKept(sb, v, v', i)
    ensures forall k :: 0 <= k < SLOTS ==> Slot(sb, v', i, k) == Slot(sb, v, i, k)
    ensures forall x :: 0 <= x < MAXFILE * BSIZE && (x / BSIZE == bn || Slot(sb, v, i, DataSlot(x / BSIZE)) != 0) ==>
      FileByte(sb, v', i, x) == if x / BSIZE == bn then data[x % BSIZE] else FileByte(sb, v, i, x)
  {
    var a := Slot(sb, v, i, DataSlot(bn));
    assert WellFormed(sb, v');
    forall i', k | 0 <= i' < sb.ninodes && 0 <= k < SLOTS
      ensures Slot(sb, v', i', k) == Slot(sb, v, i', k)
    {
      assert Both(i', NDIRECT, i, DataSlot(bn));
      assert Slot(sb, v, i', NDIRECT) != a;
    }
    assert forall j, k :: 0 <= j < sb.ninodes && 0 <= k < SLOTS && Slot(sb, v, j, k) == a ==>
      Both(j, k, i, DataSlot(bn));
    forall b | sb.datastart <= b < sb.size && v'.bitmap[b]
      ensures exists i', k :: Owner(sb, v', i', k, b)
    {
      var i', k :| Owner(sb, v, i', k, b);
      assert Owner(sb, v', i', k, b);
    }
  }

  /** v is v0 with the bytes off0..off of file i overwritten from src; the file has n blocks and no
      hole, and nothing else changed. */
  ghost predicate Progress(sb: Super, v0: Volume, v: Volume, i: nat, off0: nat, off: nat, src: seq<Byte>, n: nat)
  {
    && Owned(sb, v0) && Owned(sb, v) && i < sb.ninodes && SameMeta(sb, v0, v)
    && off0 <= v0.inodes[i].size <= MAXFILE * BSIZE && off0 <= off <= off0 + |src| <= MAXFILE * BSIZE
    && v0.inodes[i].size <= n * BSIZE && off <= n * BSIZE && Allocated(sb, v, i, n)
    && OthersKept(sb, v0, v, i) && OwnKept(sb, v0, v, i)
    && forall x :: 0 <= x < Max(v0.inodes[i].size, off) ==>
       FileByte(sb, v, i, x) == Spliced(sb, v0, i, off0, off, src, x)
  }

  /** Byte x of file i after off - off0 bytes of src are written at off0. */
  ghost function Spliced(sb: Super, v0: Volume, i: nat, off0: nat, off: nat, src: seq<Byte>, x: nat): (c: Byte)
    requires Owned(sb, v0) && i < sb.ninodes && x < MAXFILE * BSIZE && off0 <= off <= off0 + |src|
  {
    if off0 <= x < off then src[x - off0] else FileByte(sb, v0, i, x)
  }

  /** bmap, as a step of writei. */
  lemma ProgressMap(sb: Super, v0: Volume, v: Volume, v1: Volume, i: nat, off0: nat, off: nat, src: seq<Byte>, n: nat,
                    bn: nat, n': nat)
    requires Progress(sb, v0, v, i, off0, off, src, n) && Mapped(sb, v, v1, i, bn) && bn <= n && n' == Max(n, bn + 1)
    ensures Progress(sb, v0, v1, i, off0, off, src, n')
  {
    MapExtends(sb, v, v1, i, n, bn);
  }

  /** Copying m bytes into the block at off, as a step of writei. */
  lemma ProgressCopy(sb: Super, v0: Volume, v: Volume, v': Volume, i: nat, off0: nat, off: nat, m: nat,
                     src: seq<Byte>, n: nat, data: Block, off': nat)
    requires Progress(sb, v0, v, i, off0, off, src, n) && 0 < m <= BSIZE - off % BSIZE && off + m <= off0 + |src|
    requires off / BSIZE < n && |data| == BSIZE
    requires data == Patched(v.blocks[Slot(sb, v, i, DataSlot(off / BSIZE))], src, off0, off, m)
    requires v' == v.(blocks := v.blocks[Slot(sb, v, i, DataSlot(off / BSIZE)) := data])
    requires off' == off + m
    ensures Progress(sb, v0, v', i, off0, off', src, n)
  {
    PatchBlock(sb, v, v', i, off / BSIZE, data);
    forall x | 0 <= x < Max(v0.inodes[i].size, off')
      ensures FileByte(sb, v', i, x) == Spliced(sb, v0, i, off0, off', src, x)
    {
      assert x / BSIZE < n;
      assert Slot(sb, v, i, DataSlot(x / BSIZE)) != 0;
      assert x < Max(v0.inodes[i].size, off) ==> FileByte(sb, v, i, x) == Spliced(sb, v0, i, off0, off, src, x);
      if x / BSIZE == off / BSIZE {
        PatchedByte(v.blocks[Slot(sb, v, i, DataSlot(off / BSIZE))], src, off0, off, m, x);
      }
    }
  }

  /** A block with m bytes of src copied into it at offset off. */
  function Patched(b: Block, src: seq<Byte>, off0: nat, off: nat, m: nat): (r: Block)
    requires |b| == BSIZE && off0 <= off && m <= BSIZE - off % BSIZE && off + m <= off0 + |src|
  {
    b[..off % BSIZE] + src[off - off0..off - off0 + m] + b[off % BSIZE + m..]
  }

  lemma PatchedByte(b: Block, src: seq<Byte>, off0: nat, off: nat, m: nat, x: nat)
    requires |b| == BSIZE && off0 <= off && 0 < m <= BSIZE - off % BSIZE && off + m <= off0 + |src|
    requires x / BSIZE == off / BSIZE
    ensures Patched(b, src, off0, off, m)[x % BSIZE] == if off <= x < off + m then src[x - off0] else b[x % BSIZE]
  {
  }

  /** The number of bytes writei copies in one round at off with `rest` bytes to go. */
  function RoundLength(off: nat, rest: nat): (m: nat)
    requires 0 < rest
    ensures 0 < m <= rest && m <= BSIZE - off % BSIZE
    ensures BlocksFor(off + m) == off / BSIZE + 1
    ensures m < rest ==> (off + m) / BSIZE == off / BSIZE + 1
  {
    if rest < BSIZE - off % BSIZE then rest else BSIZE - off % BSIZE
  }

  // The blocks a write logs.

  /** The data blocks of the file's blocks lo..hi. */
  ghost function BlocksIn(sb: Super, v: Volume, i: nat, lo: nat, hi: nat): (s: set<nat>)
    requires WellFormed(sb, v) && i < sb.ninodes && hi <= MAXFILE
  {
    if lo >= hi then {} else BlocksIn(sb, v, i, lo, hi - 1) + {Slot(sb, v, i, DataSlot(hi - 1))}
  }

  /** The bitmap blocks that hold the bits of the file's blocks lo..hi. */
  ghost function BitmapIn(sb: Super, v: Volume, i: nat, lo: nat, hi: nat): (s: set<nat>)
    requires WellFormed(sb, v) && i < sb.ninodes && hi <= MAXFILE
  {
    if lo >= hi then {} else BitmapIn(sb, v, i, lo, hi - 1) + {BBlock(sb, Slot(sb, v, i, DataSlot(hi - 1)))}
  }

  function BBlock(sb: Super, b: nat): (n: nat)
  {
    b / BPB + sb.bmapstart
  }

  function IBlock(sb: Super, i: nat): (n: nat)
  {
    i / IPB + sb.inodestart
  }

  /** What writei has logged after taking file i from n0 blocks to n and writing its blocks lo..hi. */
  ghost function WriteLogs(sb: Super, v: Volume, i: nat, lo: nat, hi: nat, n0: nat, n: nat): (s: set<nat>)
    requires WellFormed(sb, v) && i < sb.ninodes && hi <= MAXFILE && n <= MAXFILE
  {
    BlocksIn(sb, v, i, lo, hi) + BitmapIn(sb, v, i, n0, n) + IndirectLogs(sb, v, i, n0, n)
  }

  /** The indirect block, if an entry of it is new, and its bitmap block, if it is new itself. */
  ghost function IndirectLogs(sb: Super, v: Volume, i: nat, n0: nat, n: nat): (s: set<nat>)
    requires WellFormed(sb, v) && i < sb.ninodes
  {
    var a := Slot(sb, v, i, NDIRECT);
    if n0 >= n || n <= NDIRECT then {} else if n0 > NDIRECT then {a} else {a, BBlock(sb, a)}
  }

  lemma Join(a: set<nat>, b: set<nat>, c: set<nat>)
    ensures (a + b) + c == a + (b + c)
  {
  }

  lemma Regroup(b: set<nat>, m: set<nat>, t: set<nat>, x: set<nat>, a: nat, c: nat)
    ensures (b + {a}) + (m + {c}) + (t + x) == (b + m + t) + ({a, c} + x)
  {
  }

  lemma {:induction false} SameSlotsSameLogs(sb: Super, v: Volume, v': Volume, i: nat, lo: nat, hi: nat)
    requires WellFormed(sb, v) && WellFormed(sb, v') && i < sb.ninodes && hi <= MAXFILE
    requires forall bn :: lo <= bn < hi ==> Slot(sb, v', i, DataSlot(bn)) == Slot(sb, v, i, DataSlot(bn))
    ensures BlocksIn(sb, v', i, lo, hi) == BlocksIn(sb, v, i, lo, hi)
    ensures BitmapIn(sb, v', i, lo, hi) == BitmapIn(sb, v, i, lo, hi)
    decreases hi
  {
    if lo < hi {
      SameSlotsSameLogs(sb, v, v', i, lo, hi - 1);
    }
  }

  /** The blocks bmap logs when it allocates the file's block bn. */
  ghost function MapLogs(sb: Super, v: Volume, v': Volume, i: nat, bn: nat): (s: set<nat>)
    requires WellFormed(sb, v) && WellFormed(sb, v') && i < sb.ninodes && bn < MAXFILE
  {
    var a, indirect := Slot(sb, v', i, DataSlot(bn)), Slot(sb, v', i, NDIRECT);
    {a, BBlock(sb, a)} +
    (if bn < NDIRECT then {} else if Slot(sb, v, i, NDIRECT) == 0 then {indirect, BBlock(sb, indirect)} else {indirect})
  }

  /** Writing a block that exists logs that block. */
  lemma WriteLogsOld(sb: Super, v: Volume, i: nat, lo: nat, bn: nat, n0: nat, n: nat)
    requires WellFormed(sb, v) && i < sb.ninodes && lo <= bn < n <= MAXFILE
    ensures WriteLogs(sb, v, i, lo, bn + 1, n0, n) ==
      WriteLogs(sb, v, i, lo, bn, n0, n) + {Slot(sb, v, i, DataSlot(bn))}
  {
  }

  /** Writing a new block logs that block and what bmap logged. */
  lemma WriteLogsNew(sb: Super, v: Volume, v': Volume, i: nat, lo: nat, n0: nat, n: nat)
    requires Mapped(sb, v, v', i, n) && Allocated(sb, v, i, n) && lo <= n && n0 <= n
    ensures WriteLogs(sb, v', i, lo, n + 1, n0, n + 1) == WriteLogs(sb, v, i, lo, n, n0, n) + MapLogs(sb, v, v', i, n)
  {
    assert forall b {:trigger DataSlot(b)} :: 0 <= b < n ==> Slot(sb, v, i, DataSlot(b)) != 0;
    AppendLogs(sb, v, v', i, lo, n0, n);
  }

  lemma AppendLogs(sb: Super, v: Volume, v': Volume, i: nat, lo: nat, n0: nat, n: nat)
    requires WellFormed(sb, v) && WellFormed(sb, v') && i < sb.ninodes && lo <= n && n0 <= n < MAXFILE
    requires forall b :: 0 <= b < n ==> Slot(sb, v', i, DataSlot(b)) == Slot(sb, v, i, DataSlot(b))
    requires n > NDIRECT ==> Slot(sb, v', i, NDIRECT) == Slot(sb, v, i, NDIRECT) != 0
    requires n <= NDIRECT ==> Slot(sb, v, i, NDIRECT) == 0
    ensures WriteLogs(sb, v', i, lo, n + 1, n0, n + 1) == WriteLogs(sb, v, i, lo, n, n0, n) + MapLogs(sb, v, v', i, n)
  {
    SameSlotsSameLogs(sb, v, v', i, lo, n);
    SameSlotsSameLogs(sb, v, v', i, n0, n);
    var a, indirect := Slot(sb, v', i, DataSlot(n)), Slot(sb, v', i, NDIRECT);
    var x: set<nat> := if n < NDIRECT then {}
      else if n == NDIRECT then {indirect, BBlock(sb, indirect)} else {indirect};
    assert IndirectLogs(sb, v', i, n0, n + 1) == IndirectLogs(sb, v, i, n0, n) + x;
    Regroup(BlocksIn(sb, v, i, lo, n), BitmapIn(sb, v, i, n0, n), IndirectLogs(sb, v, i, n0, n), x, a, BBlock(sb, a));
  }

  /** Logged blocks are named by slots, so a change of data alone does not change them. */
  lemma SameSlotsSameWriteLogs(sb: Super, v: Volume, v': Volume, i: nat, lo: nat, hi: nat, n0: nat, n: nat)
    requires WellFormed(sb, v) && WellFormed(sb, v') && i < sb.ninodes && hi <= MAXFILE && n <= MAXFILE
    requires forall k :: 0 <= k < SLOTS ==> Slot(sb, v', i, k) == Slot(sb, v, i, k)
    ensures WriteLogs(sb, v', i, lo, hi, n0, n) == WriteLogs(sb, v, i, lo, hi, n0, n)
  {
    SameSlotsSameLogs(sb, v, v', i, lo, hi);
    SameSlotsSameLogs(sb, v, v', i, n0, n);
  }

  /** bmap's effect on the volume and the log: nothing if the block is there, else what Mapped and
      MapLogs say. */
  ghost predicate Bmapped(sb: Super, v: Volume, l: set<nat>, v': Volume, l': set<nat>, i: nat, bn: nat, addr: nat)
  {
    && Mapped(sb, v, v', i, bn) && addr == Slot(sb, v', i, DataSlot(bn))
    && if Slot(sb, v, i, DataSlot(bn)) != 0 then v' == v && l' == l else l' == l + MapLogs(sb, v, v', i, bn)
  }

  /** Slot k of inode i holds addr in v': it did in v, or addr was allocated for it; `extra` is what storing
      the address logged. */
  ghost predicate Acquired(sb: Super, v: Volume, l: set<nat>, v': Volume, l': set<nat>, i: nat, k: nat, addr: nat,
                           extra: set<nat>)
  {
    && Owned(sb, v) && Owned(sb, v') && i < sb.ninodes && k < SLOTS && Slot(sb, v', i, k) == addr != 0
    && if Slot(sb, v, i, k) != 0 then v' == v && l' == l
       else Grows(sb, v, v', i, k, addr) && l' == l + {BBlock(sb, addr), addr} + extra
  }

  lemma DirectMapped(sb: Super, v: Volume, l: set<nat>, v': Volume, l': set<nat>, i: nat, bn: nat, addr: nat)
    requires Acquired(sb, v, l, v', l', i, bn, addr, {}) && bn < NDIRECT
    ensures Bmapped(sb, v, l, v', l', i, bn, addr)
  {
    if Slot(sb, v, i, bn) == 0 {
      MapDirect(sb, v, v', i, bn, addr);
    }
  }

  lemma IndirectMapped(sb: Super, v: Volume, l: set<nat>, v1: Volume, l1: set<nat>, v2: Volume, l2: set<nat>,
                       i: nat, bn: nat, indirect: nat, addr: nat)
    requires NDIRECT <= bn < MAXFILE && Acquired(sb, v, l, v1, l1, i, NDIRECT, indirect, {})
    requires Acquired(sb, v1, l1, v2, l2, i, bn + 1, addr, {indirect})
    ensures Bmapped(sb, v, l, v2, l2, i, bn, addr)
  {
    MapIndirect(sb, v, v1, v2, i, bn, indirect, addr);
    assert Slot(sb, v2, i, NDIRECT) == indirect;
  }

  lemma BmappedBlock(sb: Super, v: Volume, l: set<nat>, v': Volume, l': set<nat>, i: nat, bn: nat, addr: nat)
    requires Bmapped(sb, v, l, v', l', i, bn, addr)
    ensures 0 < addr < |v'.blocks| && |v'.blocks[addr]| == BSIZE
  {
  }

  /** One round of writei's loop: bmap and a copy. */
  lemma WriteRound(sb: Super, v0: Volume, v: Volume, v1: Volume, v2: Volume, i: nat, off0: nat, off: nat, m: nat,
                   src: seq<Byte>, n: nat, bn: nat, addr: nat, data: Block, off': nat, n': nat)
    requires Progress(sb, v0, v, i, off0, off, src, n) && bn == off / BSIZE <= n
    requires 0 < m <= BSIZE - off % BSIZE && off + m <= off0 + |src|
    requires Mapped(sb, v, v1, i, bn) && addr == Slot(sb, v1, i, DataSlot(bn)) < |v1.blocks|
    requires |v1.blocks[addr]| == |data| == BSIZE && data == Patched(v1.blocks[addr], src, off0, off, m)
    requires v2 == v1.(blocks := v1.blocks[addr := data])
    requires off' == off + m && n' == Max(n, bn + 1)
    ensures Progress(sb, v0, v2, i, off0, off', src, n')
  {
    ProgressMap(sb, v0, v, v1, i, off0, off, src, n, bn, n');
    ProgressCopy(sb, v0, v1, v2, i, off0, off, m, src, n', data, off');
  }

  lemma OldRoundLogs(sb: Super, v: Volume, l: set<nat>, l0: set<nat>, i: nat, lo: nat, bn: nat, n0: nat, n: nat,
                     addr: nat, bn': nat)
    requires WellFormed(sb, v) && i < sb.ninodes && lo <= bn < n <= MAXFILE && bn' == bn + 1
    requires addr == Slot(sb, v, i, DataSlot(bn))
    requires l == l0 + WriteLogs(sb, v, i, lo, bn, n0, n)
    ensures l + {addr} == l0 + WriteLogs(sb, v, i, lo, bn', n0, n)
  {
    WriteLogsOld(sb, v, i, lo, bn, n0, n);
    Join(l0, WriteLogs(sb, v, i, lo, bn, n0, n), {addr});
  }

  lemma NewRoundLogs(sb: Super, v: Volume, l: set<nat>, v1: Volume, l1: set<nat>, l0: set<nat>, i: nat,
                     lo: nat, n0: nat, n: nat, addr: nat, n': nat)
    requires Mapped(sb, v, v1, i, n) && Allocated(sb, v, i, n) && lo <= n && n0 <= n && n' == n + 1
    requires addr == Slot(sb, v1, i, DataSlot(n)) && l1 == l + MapLogs(sb, v, v1, i, n)
    requires l == l0 + WriteLogs(sb, v, i, lo, n, n0, n)
    ensures l1 + {addr} == l0 + WriteLogs(sb, v1, i, lo, n', n0, n')
  {
    WriteLogsNew(sb, v, v1, i, lo, n0, n);
    AbsorbedLog(l0, WriteLogs(sb, v, i, lo, n, n0, n), MapLogs(sb, v, v1, i, n), l, l1, addr);
  }

  lemma MapRoundLogs(sb: Super, v: Volume, l: set<nat>, v1: Volume, l1: set<nat>, l0: set<nat>, i: nat,
                     lo: nat, bn: nat, n0: nat, n: nat, addr: nat, bn': nat, n': nat)
    requires Bmapped(sb, v, l, v1, l1, i, bn, addr) && Allocated(sb, v, i, n) && lo <= bn <= n && n0 <= n
    requires l == l0 + WriteLogs(sb, v, i, lo, bn, n0, n)
    requires bn' == bn + 1 && n' == Max(n, bn')
    ensures l1 + {addr} == l0 + WriteLogs(sb, v1, i, lo, bn', n0, n')
  {
    if bn < n {
      OldRoundLogs(sb, v1, l1, l0, i, lo, bn, n0, n, addr, bn');
    } else {
      NewRoundLogs(sb, v, l, v1, l1, l0, i, lo, n0, n, addr, n');
    }
  }

  /** Logging addr again after bmap has logged it. */
  lemma AbsorbedLog(l0: set<nat>, w: set<nat>, m: set<nat>, l: set<nat>, l1: set<nat>, addr: nat)
    requires l == l0 + w && l1 == l + m && addr in m
    ensures l1 + {addr} == l0 + (w + m)
  {
  }

  /** The log after one round. */
  lemma WriteRoundLogs(sb: Super, v: Volume, l: set<nat>, v1: Volume, l1: set<nat>, v2: Volume, l0: set<nat>, i: nat,
                       lo: nat, bn: nat, n0: nat, n: nat, addr: nat, data: Block, bn': nat, n': nat)
    requires Bmapped(sb, v, l, v1, l1, i, bn, addr) && Allocated(sb, v, i, n) && lo <= bn <= n && n0 <= n
    requires |data| == BSIZE
    requires l == l0 + WriteLogs(sb, v, i, lo, bn, n0, n)
    requires v2 == v1.(blocks := v1.blocks[addr := data])
    requires bn' == bn + 1 && n' == Max(n, bn')
    ensures WellFormed(sb, v2) && l1 + {addr} == l0 + WriteLogs(sb, v2, i, lo, bn', n0, n')
  {
    MapRoundLogs(sb, v, l, v1, l1, l0, i, lo, bn, n0, n, addr, bn', n');
    PatchBlock(sb, v1, v2, i, bn, data);
    SameSlotsSameWriteLogs(sb, v1, v2, i, lo, bn', n0, n');
  }

  /** writei in mid-loop: what it has done to the volume, and what it has logged doing so. */
  ghost predicate Writing(sb: Super, v0: Volume, l0: set<nat>, v: Volume, l: set<nat>, i: nat, off0: nat, off: nat,
                          src: seq<Byte>, n0: nat, n: nat, hi: nat)
  {
    && Progress(sb, v0, v, i, off0, off, src, n) && off0 / BSIZE <= hi <= n && n0 <= n
    && l == l0 + WriteLogs(sb, v, i, off0 / BSIZE, hi, n0, n)
    && Paid(sb, v0, l0, v, l, n0, n)
  }

  /** Taking a file from n0 blocks to n cost as many free blocks as that needs, and what changed is logged. */
  ghost predicate Paid(sb: Super, v0: Volume, l0: set<nat>, v: Volume, l: set<nat>, n0: nat, n: nat)
  {
    n0 <= n && Charged(sb, v0.bitmap, v0.blocks, l0, v.bitmap, v.blocks, l, NewBlocks(n0, n))
  }

  lemma PaidRound(sb: Super, v0: Volume, l0: set<nat>, v: Volume, l: set<nat>, v1: Volume, l1: set<nat>, v2: Volume,
                  l2: set<nat>, i: nat, n0: nat, n: nat, bn: nat, addr: nat, data: Block, n': nat)
    requires Paid(sb, v0, l0, v, l, n0, n) && Bgot(sb, v, l, v1, l1, i, bn, addr) && Allocated(sb, v, i, n) && bn <= n
    requires addr < |v1.blocks| && v2 == v1.(blocks := v1.blocks[addr := data]) && l2 == l1 + {addr}
    requires n' == Max(n, bn + 1)
    ensures Paid(sb, v0, l0, v2, l2, n0, n')
  {
    NeedsOf(sb, v, i, n, bn);
    ChargedTwice(sb, v0.bitmap, v0.blocks, l0, v.bitmap, v.blocks, l, v1.bitmap, v1.blocks, l1,
                 NewBlocks(n0, n), NewBlocks(n, n'), NewBlocks(n0, n'));
    ChargedWrite(sb, v1.bitmap, v1.blocks, l1, addr, data, v2.blocks, l2);
    ChargedTwice(sb, v0.bitmap, v0.blocks, l0, v1.bitmap, v1.blocks, l1, v2.bitmap, v2.blocks, l2,
                 NewBlocks(n0, n'), 0, NewBlocks(n0, n'));
  }

  /** There are fewer free blocks than a file takes to go from n0 blocks to n. */
  ghost predicate Lacking(bits: seq<bool>, n0: nat, n: nat)
  {
    n0 <= n && FreeCount(bits) < NewBlocks(n0, n)
  }

  lemma PaidShort(sb: Super, v0: Volume, l0: set<nat>, v: Volume, l: set<nat>, i: nat, n0: nat, n: nat, bn: nat,
                  n': nat)
    requires Paid(sb, v0, l0, v, l, n0, n) && WellFormed(sb, v) && i < sb.ninodes && Allocated(sb, v, i, n) && bn <= n
    requires bn < MAXFILE
    requires FreeCount(v.bitmap) < BmapNeeds(sb, v, i, bn) && n' == Max(n, bn + 1)
    ensures Lacking(v0.bitmap, n0, n')
  {
    NeedsOf(sb, v, i, n, bn);
  }

  lemma WritingRound(sb: Super, v0: Volume, l0: set<nat>, v: Volume, l: set<nat>, v1: Volume, l1: set<nat>, v2: Volume,
                     l2: set<nat>, i: nat, off0: nat, off: nat, m: nat, src: seq<Byte>, n0: nat, n: nat, bn: nat,
                     addr: nat, data: Block, off': nat, n': nat, bn': nat)
    requires Writing(sb, v0, l0, v, l, i, off0, off, src, n0, n, bn) && bn == off / BSIZE
    requires 0 < m <= BSIZE - off % BSIZE && off + m <= off0 + |src|
    requires Bgot(sb, v, l, v1, l1, i, bn, addr) && l2 == l1 + {addr} && addr < |v1.blocks|
    requires |v1.blocks[addr]| == |data| == BSIZE && data == Patched(v1.blocks[addr], src, off0, off, m)
    requires v2 == v1.(blocks := v1.blocks[addr := data])
    requires off' == off + m && bn' == bn + 1 && n' == Max(n, bn')
    ensures Writing(sb, v0, l0, v2, l2, i, off0, off', src, n0, n', bn')
  {
    WriteRound(sb, v0, v, v1, v2, i, off0, off, m, src, n, bn, addr, data, off', n');
    WriteRoundLogs(sb, v, l, v1, l1, v2, l0, i, off0 / BSIZE, bn, n0, n, addr, data, bn', n');
    PaidRound(sb, v0, l0, v, l, v1, l1, v2, l2, i, n0, n, bn, addr, data, n');
  }

  lemma ProgressStarts(sb: Super, v: Volume, i: nat, off: nat, src: seq<Byte>, n0: nat)
    requires Owned(sb, v) && i < sb.ninodes && HoleFree(sb, v, i) && n0 == BlocksFor(v.inodes[i].size)
    requires off <= v.inodes[i].size && off + |src| <= MAXFILE * BSIZE
    ensures Progress(sb, v, v, i, off, off, src, n0) && off / BSIZE <= n0
  {
  }

  lemma WritingStarts(sb: Super, v: Volume, l: set<nat>, i: nat, off: nat, src: seq<Byte>, n0: nat)
    requires Owned(sb, v) && i < sb.ninodes && HoleFree(sb, v, i) && n0 == BlocksFor(v.inodes[i].size)
    requires off <= v.inodes[i].size && off + |src| <= MAXFILE * BSIZE
    ensures Writing(sb, v, l, v, l, i, off, off, src, n0, n0, off / BSIZE) && off / BSIZE <= n0
  {
    ProgressStarts(sb, v, i, off, src, n0);
    ChargedNone(sb, v.bitmap, v.blocks, l);
    assert BlocksIn(sb, v, i, off / BSIZE, off / BSIZE) == {} && BitmapIn(sb, v, i, n0, n0) == {};
  }

  // Free blocks, and the blocks of the disk that an operation touches.

  ghost function FreeBlocks(bits: seq<bool>): (s: set<int>)
  {
    set b | 0 <= b < |bits| && !bits[b]
  }

  /** The number of free blocks. */
  ghost function FreeCount(bits: seq<bool>): (n: nat)
  {
    |FreeBlocks(bits)|
  }

  lemma FreeCountTaken(bits: seq<bool>, r: nat)
    requires r < |bits| && !bits[r]
    ensures FreeCount(bits) == FreeCount(bits[r := true]) + 1
  {
    assert FreeBlocks(bits) == FreeBlocks(bits[r := true]) + {r};
  }

  lemma FreeCountNone(bits: seq<bool>)
    requires forall b :: 0 <= b < |bits| ==> bits[b]
    ensures FreeCount(bits) == 0
  {
    assert FreeBlocks(bits) == {};
  }

  predicate LoggedAt(l: set<nat>, b: nat)
  {
    b in l
  }

  /** What changed of the data blocks and of the bitmap's blocks is logged, and `used` free blocks were taken. */
  ghost predicate Charged(sb: Super, bits: seq<bool>, blocks: seq<Block>, l: set<nat>,
                          bits': seq<bool>, blocks': seq<Block>, l': set<nat>, used: int)
  {
    && l <= l' && |bits'| == |bits| && |blocks'| == |blocks| && FreeCount(bits) == FreeCount(bits') + used
    && (forall b {:trigger LoggedAt(l', b)} :: 0 <= b < |blocks| ==> LoggedAt(l', b) || blocks'[b] == blocks[b])
    && (forall b {:trigger LoggedAt(l', BBlock(sb, b))} :: 0 <= b < |bits| ==>
          LoggedAt(l', BBlock(sb, b)) || bits'[b] == bits[b])
  }

  lemma ChargedNone(sb: Super, bits: seq<bool>, blocks: seq<Block>, l: set<nat>)
    ensures Charged(sb, bits, blocks, l, bits, blocks, l, 0)
  {
  }

  lemma ChargedTwice(sb: Super, bits: seq<bool>, blocks: seq<Block>, l: set<nat>, bits1: seq<bool>, blocks1: seq<Block>,
                     l1: set<nat>, bits2: seq<bool>, blocks2: seq<Block>, l2: set<nat>, m: int, n: int, used: int)
    requires Charged(sb, bits, blocks, l, bits1, blocks1, l1, m)
    requires Charged(sb, bits1, blocks1, l1, bits2, blocks2, l2, n)
    requires used == m + n
    ensures Charged(sb, bits, blocks, l, bits2, blocks2, l2, used)
  {
    forall b | 0 <= b < |blocks|
      ensures LoggedAt(l2, b) || blocks2[b] == blocks[b]
    {
      assert LoggedAt(l1, b) ==> LoggedAt(l2, b);
    }
    forall b | 0 <= b < |bits|
      ensures LoggedAt(l2, BBlock(sb, b)) || bits2[b] == bits[b]
    {
      assert LoggedAt(l1, BBlock(sb, b)) ==> LoggedAt(l2, BBlock(sb, b));
    }
  }

  /** A free block marked and zeroed. */
  lemma ChargedBlock(sb: Super, bits: seq<bool>, blocks: seq<Block>, l: set<nat>, r: nat, bits': seq<bool>,
                     blocks': seq<Block>, l': set<nat>)
    requires r < |bits| && r < |blocks| && !bits[r] && bits' == bits[r := true] && blocks' == blocks[r := ZeroBlock()]
    requires l' == l + {BBlock(sb, r), r}
    ensures Charged(sb, bits, blocks, l, bits', blocks', l', 1)
  {
    FreeCountTaken(bits, r);
  }

  /** New contents for a block that is logged. */
  lemma ChargedWrite(sb: Super, bits: seq<bool>, blocks: seq<Block>, l: set<nat>, b: nat, data: Block,
                     blocks': seq<Block>, l': set<nat>)
    requires b < |blocks| && blocks' == blocks[b := data] && l' == l + {b}
    ensures Charged(sb, bits, blocks, l, bits, blocks', l', 0)
  {
  }

  /** Free blocks that bmap takes for block bn of file i. */
  ghost function BmapNeeds(sb: Super, v: Volume, i: nat, bn: nat): (n: nat)
    requires WellFormed(sb, v) && i < sb.ninodes && bn < MAXFILE
  {
    if Slot(sb, v, i, DataSlot(bn)) != 0 then 0
    else if bn >= NDIRECT && Slot(sb, v, i, NDIRECT) == 0 then 2 else 1
  }

  /** Acquired, with what it cost. */
  ghost predicate Got(sb: Super, v: Volume, l: set<nat>, v': Volume, l': set<nat>, i: nat, k: nat, addr: nat,
                      extra: set<nat>)
  {
    && Acquired(sb, v, l, v', l', i, k, addr, extra)
    && Charged(sb, v.bitmap, v.blocks, l, v'.bitmap, v'.blocks, l', if Slot(sb, v, i, k) == 0 then 1 else 0)
  }

  /** Bmapped, with what it cost. */
  ghost predicate Bgot(sb: Super, v: Volume, l: set<nat>, v': Volume, l': set<nat>, i: nat, bn: nat, addr: nat)
  {
    && Bmapped(sb, v, l, v', l', i, bn, addr)
    && Charged(sb, v.bitmap, v.blocks, l, v'.bitmap, v'.blocks, l', BmapNeeds(sb, v, i, bn))
  }

  lemma DirectGot(sb: Super, v: Volume, l: set<nat>, v': Volume, l': set<nat>, i: nat, bn: nat, addr: nat)
    requires Got(sb, v, l, v', l', i, bn, addr, {}) && bn < NDIRECT
    ensures Bgot(sb, v, l, v', l', i, bn, addr)
  {
    DirectMapped(sb, v, l, v', l', i, bn, addr);
  }

  lemma IndirectNeeds(sb: Super, v: Volume, l: set<nat>, v1: Volume, l1: set<nat>, i: nat, bn: nat, indirect: nat)
    requires NDIRECT <= bn < MAXFILE && Acquired(sb, v, l, v1, l1, i, NDIRECT, indirect, {})
    ensures Slot(sb, v1, i, bn + 1) == Slot(sb, v, i, bn + 1) && DataSlot(bn) == bn + 1
    ensures BmapNeeds(sb, v, i, bn) ==
      (if Slot(sb, v, i, NDIRECT) == 0 then 1 else 0) + if Slot(sb, v1, i, bn + 1) == 0 then 1 else 0
  {
  }

  lemma IndirectGot(sb: Super, v: Volume, l: set<nat>, v1: Volume, l1: set<nat>, v2: Volume, l2: set<nat>,
                    i: nat, bn: nat, indirect: nat, addr: nat)
    requires NDIRECT <= bn < MAXFILE && Got(sb, v, l, v1, l1, i, NDIRECT, indirect, {})
    requires Got(sb, v1, l1, v2, l2, i, bn + 1, addr, {indirect})
    ensures Bgot(sb, v, l, v2, l2, i, bn, addr)
  {
    IndirectNeeds(sb, v, l, v1, l1, i, bn, indirect);
    IndirectMapped(sb, v, l, v1, l1, v2, l2, i, bn, indirect, addr);
    ChargedTwice(sb, v.bitmap, v.blocks, l, v1.bitmap, v1.blocks, l1, v2.bitmap, v2.blocks, l2,
                 if Slot(sb, v, i, NDIRECT) == 0 then 1 else 0,
                 if Slot(sb, v1, i, bn + 1) == 0 then 1 else 0, BmapNeeds(sb, v, i, bn));
  }

  /** The entry could not be had: there was no free block left. */
  lemma IndirectShort(sb: Super, v: Volume, l: set<nat>, v1: Volume, l1: set<nat>, i: nat, bn: nat, indirect: nat)
    requires NDIRECT <= bn < MAXFILE && Got(sb, v, l, v1, l1, i, NDIRECT, indirect, {})
    requires Slot(sb, v1, i, bn + 1) == 0 && FreeCount(v1.bitmap) == 0
    ensures FreeCount(v.bitmap) < BmapNeeds(sb, v, i, bn)
  {
    IndirectNeeds(sb, v, l, v1, l1, i, bn, indirect);
  }

  /** Free blocks that a file takes to go from n0 blocks to n, its indirect block among them. */
  function NewBlocks(n0: nat, n: nat): (k: nat)
    requires n0 <= n
  {
    n - n0 + if n0 <= NDIRECT < n then 1 else 0
  }

  lemma NeedsOf(sb: Super, v: Volume, i: nat, n: nat, bn: nat)
    requires WellFormed(sb, v) && i < sb.ninodes && Allocated(sb, v, i, n) && bn <= n && bn < MAXFILE
    ensures BmapNeeds(sb, v, i, bn) == NewBlocks(n, Max(n, bn + 1))
  {
  }

  // A completed write.

  function Splice(c: seq<Byte>, off: nat, src: seq<Byte>): (r: seq<Byte>)
    requires off <= |c|
  {
    c[..off] + src + if off + |src| < |c| then c[off + |src|..] else []
  }

  lemma SpliceAt(c: seq<Byte>, off: nat, src: seq<Byte>, x: nat)
    requires off <= |c| && x < Max(|c|, off + |src|)
    ensures |Splice(c, off, src)| == Max(|c|, off + |src|)
    ensures Splice(c, off, src)[x] == if off <= x < off + |src| then src[x - off] else c[x]
  {
  }

  /** Giving inode i its new size, and nothing else, keeps every slot and every byte. */
  lemma ResizeKeepsSlots(sb: Super, v: Volume, v': Volume, i: nat, size: nat)
    requires Owned(sb, v) && i < sb.ninodes && v' == v.(inodes := v.inodes[i := v.inodes[i].(size := size)])
    ensures Owned(sb, v')
    ensures forall j, k :: 0 <= j < sb.ninodes && 0 <= k < SLOTS ==> Slot(sb, v', j, k) == Slot(sb, v, j, k)
  {
    assert WellFormed(sb, v');
    forall j, k | 0 <= j < sb.ninodes && 0 <= k < SLOTS
      ensures Slot(sb, v', j, k) == Slot(sb, v, j, k)
    {
    }
    forall b | sb.datastart <= b < sb.size && v'.bitmap[b]
      ensures exists j, k :: Owner(sb, v', j, k, b)
    {
      var j, k :| Owner(sb, v, j, k, b);
      assert Owner(sb, v', j, k, b);
    }
  }

  /** Every other file keeps its metadata and its bytes. */
  ghost predicate OtherFilesKept(sb: Super, v: Volume, v': Volume, i: nat)
  {
    && Sound(sb, v) && Sound(sb, v')
    && forall j :: 0 <= j < sb.ninodes && j != i ==>
         v'.inodes[j].(addrs := []) == v.inodes[j].(addrs := []) && Contents(sb, v', j) == Contents(sb, v, j)
  }

  /** Emptying file i leaves a sound volume, and every other file with its bytes. */
  lemma TruncateKeepsSound(sb: Super, v: Volume, v': Volume, i: nat)
    requires Sound(sb, v) && Owned(sb, v') && Releases(sb, v, v', i) && v'.blocks == v.blocks && v'.inodes[i].size == 0
    requires forall j :: 0 <= j < sb.ninodes && j != i ==> v'.inodes[j] == v.inodes[j]
    ensures OtherFilesKept(sb, v, v', i) && Contents(sb, v', i) == []
  {
    assert forall bn :: 0 <= bn < MAXFILE ==> Slot(sb, v', i, DataSlot(bn)) == 0;
    assert BlocksFor(0) == 0 && Allocated(sb, v', i, 0);
    forall j | 0 <= j < sb.ninodes && j != i
      ensures HoleFree(sb, v', j) && Contents(sb, v', j) == Contents(sb, v, j)
    {
      SameSlotsSameFile(sb, v, v', j);
    }
  }

  lemma SameSlotsSameFile(sb: Super, v: Volume, v': Volume, j: nat)
    requires Owned(sb, v) && Owned(sb, v') && j < sb.ninodes && HoleFree(sb, v, j)
    requires v'.blocks == v.blocks && v'.inodes[j] == v.inodes[j]
    ensures HoleFree(sb, v', j) && Contents(sb, v', j) == Contents(sb, v, j)
  {
    assert forall k :: 0 <= k < SLOTS ==> Slot(sb, v', j, k) == Slot(sb, v, j, k);
  }

  /** The volume after writei's loop and the size update: sound, spliced, and otherwise the same. */
  lemma WriteCompletes(sb: Super, v0: Volume, v: Volume, v': Volume, i: nat, off0: nat, src: seq<Byte>, off: nat,
                       n: nat)
    requires Sound(sb, v0) && Progress(sb, v0, v, i, off0, off, src, n) && off == off0 + |src|
    requires n == Max(BlocksFor(v0.inodes[i].size), BlocksFor(off))
    requires v' == v.(inodes := v.inodes[i := v.inodes[i].(size := Max(v0.inodes[i].size, off))])
    ensures Sound(sb, v') && OtherFilesKept(sb, v0, v', i)
    ensures Contents(sb, v', i) == Splice(Contents(sb, v0, i), off0, src)
    ensures off <= v0.inodes[i].size ==> v'.inodes[i] == v0.inodes[i]
  {
    if off <= v0.inodes[i].size {
      assert HoleFree(sb, v0, i) && n == BlocksFor(v0.inodes[i].size);
      SameLengthSameAddrs(sb, v0, v, i, n);
      assert v.inodes[i].(addrs := []) == v0.inodes[i].(addrs := []);
    }
    ResizeKeepsSlots(sb, v, v', i, Max(v0.inodes[i].size, off));
    OwnFileSpliced(sb, v0, v, v', i, off0, src, off, n);
    forall j | 0 <= j < sb.ninodes && j != i
      ensures HoleFree(sb, v', j) && Contents(sb, v', j) == Contents(sb, v0, j)
      ensures v'.inodes[j].(addrs := []) == v0.inodes[j].(addrs := [])
    {
      OtherKept(sb, v0, v, v', i, j);
    }
  }

  lemma OwnFileSpliced(sb: Super, v0: Volume, v: Volume, v': Volume, i: nat, off0: nat, src: seq<Byte>, off: nat,
                       n: nat)
    requires Owned(sb, v') && Progress(sb, v0, v, i, off0, off, src, n) && off == off0 + |src| && HoleFree(sb, v0, i)
    requires n == Max(BlocksFor(v0.inodes[i].size), BlocksFor(off))
    requires v'.blocks == v.blocks && v'.inodes[i] == v.inodes[i].(size := Max(v0.inodes[i].size, off))
    requires forall k :: 0 <= k < SLOTS ==> Slot(sb, v', i, k) == Slot(sb, v, i, k)
    ensures HoleFree(sb, v', i) && Contents(sb, v', i) == Splice(Contents(sb, v0, i), off0, src)
  {
    BlocksForMax(v0.inodes[i].size, off);
    SameSlotsAllocated(sb, v, v', i, n);
    var c, c' := Contents(sb, v0, i), Contents(sb, v', i);
    forall x | 0 <= x < |c'|
      ensures c'[x] == Splice(c, off0, src)[x]
    {
      OwnByte(sb, v0, v, v', i, off0, src, off, n, x);
      SpliceAt(c, off0, src, x);
    }
    SpliceLength(c, off0, src);
  }

  lemma SpliceLength(c: seq<Byte>, off: nat, src: seq<Byte>)
    requires off <= |c|
    ensures |Splice(c, off, src)| == Max(|c|, off + |src|)
  {
  }

  lemma BlocksForMax(a: nat, b: nat)
    ensures Max(BlocksFor(a), BlocksFor(b)) == BlocksFor(Max(a, b))
  {
  }

  lemma SameSlotsAllocated(sb: Super, v: Volume, v': Volume, j: nat, n: nat)
    requires WellFormed(sb, v) && WellFormed(sb, v') && j < sb.ninodes && Allocated(sb, v, j, n)
    requires forall k :: 0 <= k < SLOTS ==> Slot(sb, v', j, k) == Slot(sb, v, j, k)
    ensures Allocated(sb, v', j, n)
  {
  }

  lemma OwnByte(sb: Super, v0: Volume, v: Volume, v': Volume, i: nat, off0: nat, src: seq<Byte>, off: nat, n: nat,
                x: nat)
    requires Owned(sb, v') && Progress(sb, v0, v, i, off0, off, src, n) && x < Max(v0.inodes[i].size, off)
    requires v'.blocks == v.blocks && forall k :: 0 <= k < SLOTS ==> Slot(sb, v', i, k) == Slot(sb, v, i, k)
    ensures FileByte(sb, v', i, x) == Spliced(sb, v0, i, off0, off, src, x)
  {
    assert FileByte(sb, v', i, x) == FileByte(sb, v, i, x);
  }

  lemma OtherKept(sb: Super, v0: Volume, v: Volume, v': Volume, i: nat, j: nat)
    requires Owned(sb, v0) && Owned(sb, v) && Owned(sb, v') && OthersKept(sb, v0, v, i) && SameMeta(sb, v0, v)
    requires i < sb.ninodes && j < sb.ninodes && j != i && HoleFree(sb, v0, j)
    requires v'.blocks == v.blocks && v'.inodes[j] == v.inodes[j]
    requires forall k :: 0 <= k < SLOTS ==> Slot(sb, v', j, k) == Slot(sb, v, j, k)
    ensures HoleFree(sb, v', j) && Contents(sb, v', j) == Contents(sb, v0, j)
    ensures v'.inodes[j].(addrs := []) == v0.inodes[j].(addrs := [])
  {
    assert v'.inodes[j].(addrs := []) == v0.inodes[j].(addrs := []);
    assert v'.inodes[j].size == v0.inodes[j].size;
    forall bn | 0 <= bn < MAXFILE
      ensures Slot(sb, v', j, DataSlot(bn)) == Slot(sb, v0, j, DataSlot(bn))
    {
    }
    assert Slot(sb, v', j, NDIRECT) == Slot(sb, v0, j, NDIRECT);
    assert HoleFree(sb, v', j);
    forall x | 0 <= x < v0.inodes[j].size
      ensures FileByte(sb, v', j, x) == FileByte(sb, v0, j, x)
    {
      assert x / BSIZE < BlocksFor(v0.inodes[j].size);
      assert Slot(sb, v0, j, DataSlot(x / BSIZE)) != 0;
      assert DataSlot(x / BSIZE) != NDIRECT;
    }
  }

  /** The blocks a successful writei of n > 0 bytes at off logs, `size` being the file's size before. */
  ghost function Logged(sb: Super, v: Volume, i: nat, off: nat, n: nat, size: nat): (s: set<nat>)
    requires WellFormed(sb, v) && i < sb.ninodes && off + n <= MAXFILE * BSIZE && size <= MAXFILE * BSIZE
  {
    WriteLogs(sb, v, i, off / BSIZE, BlocksFor(off + n), BlocksFor(size), Max(BlocksFor(size), BlocksFor(off + n))) +
    (if off + n > size then {IBlock(sb, i)} else {})
  }

  /** A write of src at off that took volume v to v', and disk inodes d to d': file i is spliced, every
      other file is as it was, the volume is sound, and i's disk inode is its in-memory one. */
  ghost predicate Wrote(sb: Super, v: Volume, l: set<nat>, d: seq<Inode>, v': Volume, l': set<nat>, d': seq<Inode>,
                        i: nat, off: nat, src: seq<Byte>)
  {
    && WroteFile(sb, v, d, v', d', i, off, src)
    && WroteLog(sb, l, v', l', i, off, |src|, v.inodes[i].size)
    && Charged(sb, v.bitmap, v.blocks, l, v'.bitmap, v'.blocks, l', WriteNeeds(v.inodes[i].size, off + |src|))
    && (d' == d || LoggedAt(l', IBlock(sb, i)))
  }

  /** l' is l with the blocks that writing `len` bytes at off, to a file of the size, logs. */
  ghost predicate WroteLog(sb: Super, l: set<nat>, v': Volume, l': set<nat>, i: nat, off: nat, len: nat, size: nat)
  {
    && WellFormed(sb, v') && i < sb.ninodes && off + len <= MAXFILE * BSIZE && size <= MAXFILE * BSIZE
    && l' == if len == 0 then l else l + Logged(sb, v', i, off, len, size)
  }

  ghost predicate WroteFile(sb: Super, v: Volume, d: seq<Inode>, v': Volume, d': seq<Inode>, i: nat, off: nat,
                            src: seq<Byte>)
  {
    && Sound(sb, v) && i < sb.ninodes && off <= v.inodes[i].size <= MAXFILE * BSIZE && off + |src| <= MAXFILE * BSIZE
    && OtherFilesKept(sb, v, v', i)
    && Contents(sb, v', i) == Splice(Contents(sb, v, i), off, src)
    && v'.inodes[i].(addrs := [], size := 0) == v.inodes[i].(addrs := [], size := 0)
    && |d| == sb.ninodes && d' == d[i := v'.inodes[i]]
    && SlotsKept(sb, v, v', i)
  }

  /** No slot in use moves, and inode i alone gets new ones. */
  ghost predicate SlotsKept(sb: Super, v: Volume, v': Volume, i: nat)
  {
    && WellFormed(sb, v) && WellFormed(sb, v') && i < sb.ninodes
    && forall j, k {:trigger KeptSlot(sb, v, v', i, j, k)} :: 0 <= j < sb.ninodes && 0 <= k < SLOTS ==>
       KeptSlot(sb, v, v', i, j, k)
  }

  ghost predicate KeptSlot(sb: Super, v: Volume, v': Volume, i: nat, j: nat, k: nat)
    requires WellFormed(sb, v) && WellFormed(sb, v') && j < sb.ninodes && k < SLOTS
  {
    j != i || Slot(sb, v, j, k) != 0 ==> Slot(sb, v', j, k) == Slot(sb, v, j, k)
  }

  /** Free blocks that a file of the size takes when it is written up to `end`. */
  function WriteNeeds(size: nat, end: nat): (n: nat)
  {
    NewBlocks(BlocksFor(size), Max(BlocksFor(size), BlocksFor(end)))
  }

  /** Every block of the disk that is not in l, be it of inodes, of the bitmap or of data, is the same in v and v'. */
  ghost predicate DiskKept(sb: Super, v: Volume, v': Volume, l: set<nat>)
  {
    && |v'.bitmap| == |v.bitmap| && |v'.blocks| == |v.blocks| && |v'.inodes| == |v.inodes|
    && (forall b {:trigger LoggedAt(l, b)} :: 0 <= b < |v.blocks| ==> LoggedAt(l, b) || v'.blocks[b] == v.blocks[b])
    && (forall b {:trigger LoggedAt(l, BBlock(sb, b))} :: 0 <= b < |v.bitmap| ==>
          LoggedAt(l, BBlock(sb, b)) || v'.bitmap[b] == v.bitmap[b])
    && (forall j {:trigger LoggedAt(l, IBlock(sb, j))} :: 0 <= j < |v.inodes| ==>
          LoggedAt(l, IBlock(sb, j)) || v'.inodes[j] == v.inodes[j])
  }

  /** With the disk inodes in step with memory before and after, a write changes only the blocks it logs. */
  lemma WroteKeepsDisk(sb: Super, v: Volume, v': Volume, l': set<nat>, i: nat, off: nat, src: seq<Byte>)
    requires Wrote(sb, v, {}, v.inodes, v', l', v'.inodes, i, off, src)
    ensures DiskKept(sb, v, v', l')
  {
  }

  lemma WroteNothing(sb: Super, v: Volume, l: set<nat>, d: seq<Inode>, i: nat, off: nat)
    requires Sound(sb, v) && i < sb.ninodes && off <= v.inodes[i].size && |d| == sb.ninodes && d[i] == v.inodes[i]
    ensures Wrote(sb, v, l, d, v, l, d, i, off, [])
  {
    assert HoleFree(sb, v, i);
    assert Splice(Contents(sb, v, i), off, []) == Contents(sb, v, i);
    assert d == d[i := v.inodes[i]] && l == l + {};
    assert Max(BlocksFor(v.inodes[i].size), BlocksFor(off)) == BlocksFor(v.inodes[i].size);
    ChargedNone(sb, v.bitmap, v.blocks, l);
  }

  /** What was written is what the file then holds there, and the bytes on either side are the old ones. */
  lemma ReadsBack(sb: Super, v: Volume, l: set<nat>, d: seq<Inode>, v': Volume, l': set<nat>, d': seq<Inode>,
                  i: nat, off: nat, src: seq<Byte>, x: nat)
    requires Wrote(sb, v, l, d, v', l', d', i, off, src)
    ensures |Contents(sb, v', i)| == Max(|Contents(sb, v, i)|, off + |src|)
    ensures Contents(sb, v', i)[off..off + |src|] == src
    ensures x < |Contents(sb, v, i)| && !(off <= x < off + |src|) ==> Contents(sb, v', i)[x] == Contents(sb, v, i)[x]
  {
  }

  lemma LogsFinish(sb: Super, v: Volume, i: nat, off: nat, len: nat, size: nat, hi: nat, n: nat, l0: set<nat>,
                   l: set<nat>, l': set<nat>)
    requires WellFormed(sb, v) && i < sb.ninodes && off + len <= MAXFILE * BSIZE && size <= MAXFILE * BSIZE
    requires hi == BlocksFor(off + len) && n == Max(BlocksFor(size), hi)
    requires l == l0 + WriteLogs(sb, v, i, off / BSIZE, hi, BlocksFor(size), n)
    requires l' == if off + len > size then l + {IBlock(sb, i)} else l
    ensures l' == l0 + Logged(sb, v, i, off, len, size)
  {
    var w := WriteLogs(sb, v, i, off / BSIZE, hi, BlocksFor(size), n);
    assert Logged(sb, v, i, off, len, size) == w + if off + len > size then {IBlock(sb, i)} else {};
    Join(l0, w, {IBlock(sb, i)});
    Join(l0, w, {});
  }

  lemma WriteFinishes(sb: Super, v0: Volume, l0: set<nat>, d0: seq<Inode>, v: Volume, l: set<nat>, v': Volume,
                      l': set<nat>, d': seq<Inode>, i: nat, off0: nat, src: seq<Byte>, off: nat, n: nat, hi: nat)
    requires Sound(sb, v0) && i < sb.ninodes
    requires Writing(sb, v0, l0, v, l, i, off0, off, src, BlocksFor(v0.inodes[i].size), n, hi)
    requires src != [] && off == off0 + |src| && hi == BlocksFor(off) && n == Max(BlocksFor(v0.inodes[i].size), hi)
    requires |d0| == sb.ninodes && d0[i] == v0.inodes[i]
    requires v' == v.(inodes := v.inodes[i := v.inodes[i].(size := Max(v0.inodes[i].size, off))])
    requires if off > v0.inodes[i].size then d' == d0[i := v'.inodes[i]] && l' == l + {IBlock(sb, i)}
      else d' == d0 && l' == l
    ensures Wrote(sb, v0, l0, d0, v', l', d', i, off0, src)
  {
    FinishFile(sb, v0, d0, v, v', d', i, off0, src, off, n);
    FinishLog(sb, v, v', i, off0, |src|, off, v0.inodes[i].size, hi, n, l0, l, l');
    FinishPaid(sb, v0, l0, v, l, v', l', n, i, v0.inodes[i].size, off0 + |src|);
  }

  lemma FinishLog(sb: Super, v: Volume, v': Volume, i: nat, off: nat, len: nat, end: nat, size: nat, hi: nat, n: nat,
                  l0: set<nat>, l: set<nat>, l': set<nat>)
    requires Owned(sb, v) && i < sb.ninodes && 0 < len && end == off + len <= MAXFILE * BSIZE && size <= MAXFILE * BSIZE
    requires v' == v.(inodes := v.inodes[i := v.inodes[i].(size := Max(size, end))])
    requires hi == BlocksFor(end) && n == Max(BlocksFor(size), hi)
    requires l == l0 + WriteLogs(sb, v, i, off / BSIZE, hi, BlocksFor(size), n)
    requires if end > size then l' == l + {IBlock(sb, i)} else l' == l
    ensures WroteLog(sb, l0, v', l', i, off, len, size)
  {
    ResizeKeepsSlots(sb, v, v', i, Max(size, end));
    SameSlotsSameWriteLogs(sb, v, v', i, off / BSIZE, hi, BlocksFor(size), n);
    LogsFinish(sb, v', i, off, len, size, hi, n, l0, l, l');
  }

  lemma FinishFile(sb: Super, v0: Volume, d0: seq<Inode>, v: Volume, v': Volume, d': seq<Inode>,
                   i: nat, off0: nat, src: seq<Byte>, off: nat, n: nat)
    requires Sound(sb, v0) && i < sb.ninodes && Progress(sb, v0, v, i, off0, off, src, n)
    requires off == off0 + |src| && n == Max(BlocksFor(v0.inodes[i].size), BlocksFor(off))
    requires |d0| == sb.ninodes && d0[i] == v0.inodes[i]
    requires v' == v.(inodes := v.inodes[i := v.inodes[i].(size := Max(v0.inodes[i].size, off))])
    requires d' == if off > v0.inodes[i].size then d0[i := v'.inodes[i]] else d0
    ensures WroteFile(sb, v0, d0, v', d', i, off0, src)
  {
    WriteCompletes(sb, v0, v, v', i, off0, src, off, n);
    ResizeKeepsSlots(sb, v, v', i, Max(v0.inodes[i].size, off));
    assert v.inodes[i].(addrs := []) == v0.inodes[i].(addrs := []);
    assert d' == d0[i := v'.inodes[i]];
  }

  lemma FinishPaid(sb: Super, v0: Volume, l0: set<nat>, v: Volume, l: set<nat>, v': Volume, l': set<nat>, n: nat,
                   i: nat, size: nat, end: nat)
    requires n == Max(BlocksFor(size), BlocksFor(end)) && Paid(sb, v0, l0, v, l, BlocksFor(size), n)
    requires v'.bitmap == v.bitmap && v'.blocks == v.blocks && (l' == l || l' == l + {IBlock(sb, i)})
    ensures Charged(sb, v0.bitmap, v0.blocks, l0, v'.bitmap, v'.blocks, l', WriteNeeds(size, end))
  {
    var n0 := BlocksFor(size);
    assert Charged(sb, v.bitmap, v.blocks, l, v'.bitmap, v'.blocks, l', 0);
    ChargedTwice(sb, v0.bitmap, v0.blocks, l0, v.bitmap, v.blocks, l, v'.bitmap, v'.blocks, l', NewBlocks(n0, n), 0,
                 NewBlocks(n0, n));
  }
}
