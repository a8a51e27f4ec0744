/** mkfs.c: the image the file system starts from. Blocks are handed out in order, so while the image is built the
    bitmap balloc will write at the end is that of the blocks below freeblock. A failed assert, or the exit when a
    sector beyond the image is read, is the result `false`. */
module Mkfs {
  import opened Volume
  import opened Params

  const T_DIR := 1
  const T_FILE := 2
  const ROOTINO := 1
  const DIRSIZ := 14

  /** The first n of size blocks are in use. */
  function Used(size: nat, n: nat): (bits: seq<bool>)
    ensures |bits| == size && forall b :: 0 <= b < size ==> bits[b] == (b < n)
  {
    seq(size, b => b < n)
  }

  /** The volume, with the blocks below freeblock in use. */
  function Image(sb: Super, freeblock: nat, blocks: seq<Block>, inodes: seq<Inode>): (v: Volume)
  {
    Volume(Used(sb.size, freeblock), blocks, inodes)
  }

  /** Blocks not handed out are still zero. */
  ghost predicate Untouched(sb: Super, freeblock: nat, blocks: seq<Block>)
  {
    |blocks| == sb.size && forall b :: freeblock <= b < sb.size ==> IsZero(blocks[b])
  }

  predicate IsZero(b: Block)
  {
    b == ZeroBlock()
  }

  lemma UsedNext(size: nat, n: nat)
    requires n < size
    ensures Used(size, n + 1) == Used(size, n)[n := true]
  {
  }

  /** What iappend's view of the volume is while din is a copy of inode i. */
  ghost predicate Open(sb: Super, freeblock: nat, blocks: seq<Block>, inodes: seq<Inode>, i: nat, din: Inode)
  {
    && |din.addrs| == NDIRECT + 1 && din.addrs[NDIRECT] < sb.size && i < sb.ninodes == |inodes|
    && sb.datastart <= freeblock <= sb.size && Untouched(sb, freeblock, blocks)
    && Owned(sb, Image(sb, freeblock, blocks, inodes[i := din]))
  }

  /** Storing the next block's number in an address of the inode. */
  lemma TakeAddr(sb: Super, freeblock: nat, blocks: seq<Block>, inodes: seq<Inode>, i: nat, din: Inode, k: nat,
                 din': Inode, l: set<nat>)
    requires Open(sb, freeblock, blocks, inodes, i, din) && freeblock < sb.size && k <= NDIRECT && din.addrs[k] == 0
    requires din' == din.(addrs := din.addrs[k := freeblock])
    ensures Open(sb, freeblock + 1, blocks, inodes, i, din')
    ensures Acquired(sb, Image(sb, freeblock, blocks, inodes[i := din]), l,
                     Image(sb, freeblock + 1, blocks, inodes[i := din']),
                     l + {BBlock(sb, freeblock), freeblock} + {}, i, k, freeblock, {})
  {
    var v := Image(sb, freeblock, blocks, inodes[i := din]);
    UsedNext(sb.size, freeblock);
    assert Slot(sb, v, i, k) == 0;
    ClaimInode(sb, v, i, k, freeblock);
    var v' := Image(sb, freeblock + 1, blocks, inodes[i := din']);
    assert blocks[freeblock := ZeroBlock()] == blocks;
    assert inodes[i := din][i := din'] == inodes[i := din'];
    assert v' == Volume(v.bitmap[freeblock := true], v.blocks[freeblock := ZeroBlock()],
                        v.inodes[i := v.inodes[i].(addrs := v.inodes[i].addrs[k := freeblock])]);
    ClaimKeepsOwned(sb, v, v', i, k, freeblock);
  }

  /** Storing it in an entry of the indirect block. */
  lemma TakeEntry(sb: Super, freeblock: nat, blocks: seq<Block>, inodes: seq<Inode>, i: nat, din: Inode, j: nat,
                  blocks': seq<Block>, l: set<nat>)
    requires Open(sb, freeblock, blocks, inodes, i, din) && freeblock < sb.size && j < NINDIRECT
    requires din.addrs[NDIRECT] != 0
    requires |blocks[din.addrs[NDIRECT]]| == BSIZE && Word(blocks[din.addrs[NDIRECT]], j) == 0
    requires blocks' == blocks[din.addrs[NDIRECT] := SetWord(blocks[din.addrs[NDIRECT]], j, freeblock)]
    ensures Open(sb, freeblock + 1, blocks', inodes, i, din)
    ensures Acquired(sb, Image(sb, freeblock, blocks, inodes[i := din]), l,
                     Image(sb, freeblock + 1, blocks', inodes[i := din]),
                     l + {BBlock(sb, freeblock), freeblock} + {din.addrs[NDIRECT]}, i, NDIRECT + 1 + j, freeblock,
                     {din.addrs[NDIRECT]})
  {
    var v := Image(sb, freeblock, blocks, inodes[i := din]);
    var a := din.addrs[NDIRECT];
    UsedNext(sb.size, freeblock);
    assert Slot(sb, v, i, NDIRECT) == a && Slot(sb, v, i, NDIRECT + 1 + j) == 0;
    ClaimEntry(sb, v, i, j, freeblock);
    var v' := Image(sb, freeblock + 1, blocks', inodes[i := din]);
    assert blocks[freeblock := ZeroBlock()] == blocks;
    assert v' == v.(bitmap := v.bitmap[freeblock := true],
                    blocks := v.blocks[freeblock := ZeroBlock()][a := SetWord(v.blocks[a], j, freeblock)]);
    ClaimKeepsOwned(sb, v, v', i, NDIRECT + 1 + j, freeblock);
    assert a < freeblock;
  }

  /** An inode's type, links or size change, its addresses do not: every slot is as it was. */
  lemma SameAddrs(sb: Super, v: Volume, v': Volume, i: nat, x: Inode)
    requires Owned(sb, v) && i < sb.ninodes && x.addrs == v.inodes[i].addrs && v' == v.(inodes := v.inodes[i := x])
    ensures Owned(sb, v')
    ensures forall j, k :: 0 <= j < sb.ninodes && 0 <= k < SLOTS ==> Slot(sb, v', j, k) == Slot(sb, v, j, k)
  {
    assert WellFormed(sb, v');
    forall j, k | 0 <= j < sb.ninodes && 0 <= k < SLOTS
      ensures Slot(sb, v', j, k) == Slot(sb, v, j, k)
    {
    }
    forall b | sb.datastart <= b < sb.size && v'.bitmap[b]
      ensures exists j, k :: Owner(sb, v', j, k, b)
    {
      var j, k :| Owner(sb, v, j, k, b);
      assert Owner(sb, v', j, k, b);
    }
  }

  /** ialloc's inode: new type and link count, nothing else. */
  lemma RetypeKeeps(sb: Super, v: Volume, v': Volume, i: nat, x: Inode)
    requires Sound(sb, v) && i < sb.ninodes && x.addrs == v.inodes[i].addrs && x.size == v.inodes[i].size
    requires v' == v.(inodes := v.inodes[i := x])
    ensures SameContents(sb, v, v')
  {
    SameAddrs(sb, v, v', i, x);
    forall j | 0 <= j < sb.ninodes
      ensures HoleFree(sb, v', j) && Contents(sb, v', j) == Contents(sb, v, j)
    {
      assert HoleFree(sb, v, j);
      assert v'.inodes[j].size == v.inodes[j].size;
      assert forall y :: 0 <= y < v.inodes[j].size ==> FileByte(sb, v', j, y) == FileByte(sb, v, j, y);
    }
  }

  /** Rounding the root's size up by a whole block keeps the volume sound exactly when the size was not already a
      multiple of BSIZE; if it was, the root gets a block it does not have. */
  lemma RoundRootExactly(sb: Super, v: Volume, v': Volume, i: nat)
    requires Sound(sb, v) && i < sb.ninodes
    requires v' == v.(inodes := v.inodes[i := v.inodes[i].(size := (v.inodes[i].size / BSIZE + 1) * BSIZE)])
    ensures Sound(sb, v') <==> v.inodes[i].size % BSIZE != 0
  {
    var size := v.inodes[i].size;
    var n := size / BSIZE + 1;
    SameAddrs(sb, v, v', i, v'.inodes[i]);
    assert HoleFree(sb, v, i);
    assert BlocksFor(n * BSIZE) == n;
    if size % BSIZE != 0 {
      assert BlocksFor(size) == n;
      forall j | 0 <= j < sb.ninodes
        ensures HoleFree(sb, v', j)
      {
        assert HoleFree(sb, v, j);
        SameSlotsAllocated(sb, v, v', j, BlocksFor(v.inodes[j].size));
      }
    } else {
      assert BlocksFor(size) == n - 1;
      assert n <= MAXFILE ==> Slot(sb, v', i, DataSlot(n - 1)) == Slot(sb, v, i, DataSlot(n - 1));
      assert !HoleFree(sb, v', i);
    }
  }

  /** The entries of a root with nfiles files fill whole blocks for every thirty-second file. */
  lemma RootBytes(nfiles: nat)
    ensures 16 * (nfiles + 2) % BSIZE != 0 <==> (nfiles + 2) % 32 != 0
  {
  }

  const BLANK := Inode(0, 0, 0, 0, [0, 0, 0, 0, 0, 0, 0, 0, 0, 0, 0, 0, 0])

  /** A volume of zeroes is sound. */
  lemma ZeroesSound(sb: Super, v: Volume)
    requires WellFormed(sb, v) && v.bitmap == Used(sb.size, sb.datastart)
    requires forall i :: 0 <= i < sb.ninodes ==> v.inodes[i] == BLANK
    ensures Sound(sb, v)
  {
    assert forall i, k :: 0 <= i < sb.ninodes && 0 <= k < SLOTS ==> Slot(sb, v, i, k) == 0;
    assert BlocksFor(0) == 0;
  }

  /** File i has p at its end; the volume is sound, and the file's type and links and every other file are
      as they were. */
  ghost predicate Extended(sb: Super, v: Volume, v': Volume, i: nat, p: seq<Byte>)
  {
    i < sb.ninodes && OtherFilesKept(sb, v, v', i) && Contents(sb, v', i) == Contents(sb, v, i) + p
      && v'.inodes[i].(addrs := [], size := 0) == v.inodes[i].(addrs := [], size := 0)
  }

  lemma AppendCompletes(sb: Super, v0: Volume, v: Volume, v': Volume, i: nat, din: Inode, off0: nat, off: nat,
                        p: seq<Byte>, n: nat)
    requires Sound(sb, v0) && Progress(sb, v0, v, i, off0, off, p, n) && off0 == v0.inodes[i].size && off == off0 + |p|
    requires n == BlocksFor(off)
    requires v.inodes[i] == din && v' == v.(inodes := v.inodes[i := din.(size := off)])
    ensures Extended(sb, v0, v', i, p)
  {
    assert BlocksFor(off0) <= n;
    WriteCompletes(sb, v0, v, v', i, off0, p, off, n);
    AppendSplice(Contents(sb, v0, i), p);
    assert v.inodes[i].(addrs := []) == v0.inodes[i].(addrs := []);
  }

  lemma AppendSplice(c: seq<Byte>, p: seq<Byte>)
    ensures Splice(c, |c|, p) == c + p
  {
  }

  /** The blocks that n bytes at off fall in. */
  function Rounds(off: nat, n: nat): (r: nat)
  {
    if n == 0 then 0 else BlocksFor(off + n) - off / BSIZE
  }

  /** iappend's loop at off, on the way to end: the rounds made since off0, and the blocks the file has. */
  predicate Counted(off0: nat, off: nat, end: nat, rounds: nat, n: nat)
  {
    && off0 <= off <= end <= MAXFILE * BSIZE && rounds == Rounds(off0, off - off0) && n == BlocksFor(off)
    && (off0 < off < end ==> off % BSIZE == 0)
  }

  lemma CountRound(off0: nat, off: nat, end: nat, m: nat, rounds: nat, n: nat, off': nat, rounds': nat, n': nat)
    requires off < end && m == RoundLength(off, end - off) && Counted(off0, off, end, rounds, n)
    requires off' == off + m && rounds' == rounds + 1 && n' == Max(n, off / BSIZE + 1)
    ensures Counted(off0, off', end, rounds', n') && rounds' <= Rounds(off0, end - off0)
    ensures 0 < m <= BSIZE - off % BSIZE && off + m <= end && off / BSIZE <= n
  {
    assert off0 < off ==> BlocksFor(off) == off / BSIZE;
    assert BlocksFor(off + m) <= BlocksFor(end);
  }

  lemma OneRound(off: nat)
    requires off % 16 == 0
    ensures Rounds(off, 16) == 1
  {
  }

  lemma CountStarts(off: nat, end: nat, n: nat)
    requires off <= end <= MAXFILE * BSIZE && n == BlocksFor(off)
    ensures Counted(off, off, end, 0, n)
  {
  }

  lemma CountEnds(off0: nat, len: nat, off: nat, end: nat, rounds: nat, n: nat)
    requires end == off0 + len && Counted(off0, off, end, rounds, n) && off >= end
    ensures off == end && rounds == Rounds(off0, len) && n == BlocksFor(end)
  {
  }

  class Builder {
    const sb: Super
    var inodes: seq<Inode>
    var blocks: seq<Block>
    var freeinode: nat
    var freeblock: nat

    ghost function View(): (v: Volume)
      reads this
    {
      Image(sb, freeblock, blocks, inodes)
    }

    ghost predicate Valid()
      reads this
    {
      && Sound(sb, View()) && sb.datastart <= freeblock <= sb.size && Untouched(sb, freeblock, blocks)
      && 1 <= freeinode <= sb.ninodes
      && forall i :: freeinode <= i < sb.ninodes ==> inodes[i] == BLANK
    }

    /** The zeroed image. */
    constructor (sb: Super)
      requires 0 < sb.datastart <= sb.size < UINT && sb.ninodes >= 1
      ensures Valid() && this.sb == sb && freeinode == 1 && freeblock == sb.datastart
    {
      this.sb := sb;
      inodes := seq(sb.ninodes, _ => BLANK);
      blocks := seq(sb.size, _ => ZeroBlock());
      freeinode, freeblock := 1, sb.datastart;
      new;
      ZeroesSound(sb, View());
    }

    /** ialloc: the next inode, with one link and no bytes. */
    method Ialloc(typ: int) returns (inum: nat)
      requires Valid() && freeinode < sb.ninodes
      modifies this`inodes, this`freeinode
      ensures Valid() && inum == old(freeinode) && freeinode == old(freeinode) + 1
      ensures inodes == old(inodes)[inum := BLANK.(typ := typ, nlink := 1)]
      ensures SameContents(sb, old(View()), View())
    {
      inum := freeinode;
      freeinode := freeinode + 1;
      ghost var v := View();
      inodes := inodes[inum := BLANK.(typ := typ, nlink := 1)];
      RetypeKeeps(sb, v, View(), inum, BLANK.(typ := typ, nlink := 1));
    }

    /** iappend's choice of the block for block fbn of the file, whose inode is copied in din. */
    method MapBlock(inum: nat, din: Inode, fbn: nat) returns (ok: bool, x: nat, din': Inode)
      requires Open(sb, freeblock, blocks, inodes, inum, din) && fbn < MAXFILE
      modifies this`blocks, this`freeblock
      ensures freeblock <= old(freeblock) + 2
      ensures !ok ==> freeblock == sb.size
      ensures ok ==> Open(sb, freeblock, blocks, inodes, inum, din')
      ensures ok ==>
        Mapped(sb, Image(sb, old(freeblock), old(blocks), inodes[inum := din]),
               Image(sb, freeblock, blocks, inodes[inum := din']), inum, fbn)
      ensures ok ==> x == Slot(sb, Image(sb, freeblock, blocks, inodes[inum := din']), inum, DataSlot(fbn))
    {
      ghost var v := Image(sb, freeblock, blocks, inodes[inum := din]);
      if fbn < NDIRECT {
        ghost var l: set<nat>;
        ok, x, din', l := Addr(inum, din, fbn);
        if ok {
          DirectMapped(sb, v, {}, Image(sb, freeblock, blocks, inodes[inum := din']), l, inum, fbn, x);
        }
        return;
      }
      ok, x, din' := MapIndirect(inum, din, fbn);
    }

    /** The same for a block past the direct ones. */
    method MapIndirect(inum: nat, din: Inode, fbn: nat) returns (ok: bool, x: nat, din': Inode)
      requires Open(sb, freeblock, blocks, inodes, inum, din) && NDIRECT <= fbn < MAXFILE
      modifies this`blocks, this`freeblock
      ensures freeblock <= old(freeblock) + 2
      ensures !ok ==> freeblock == sb.size
      ensures ok ==> Open(sb, freeblock, blocks, inodes, inum, din')
      ensures ok ==>
        Mapped(sb, Image(sb, old(freeblock), old(blocks), inodes[inum := din]),
               Image(sb, freeblock, blocks, inodes[inum := din']), inum, fbn)
      ensures ok ==> x == Slot(sb, Image(sb, freeblock, blocks, inodes[inum := din']), inum, DataSlot(fbn))
    {
      ghost var v := Image(sb, freeblock, blocks, inodes[inum := din]);
      var a; ghost var l1: set<nat>;
      ok, a, din', l1 := Addr(inum, din, NDIRECT);
      if !ok {
        return false, 0, din';
      }
      ghost var v1 := Image(sb, freeblock, blocks, inodes[inum := din']);
      ghost var l2: set<nat>;
      ok, x, l2 := IndirectEntry(inum, din', fbn - NDIRECT, a, l1);
      if ok {
        IndirectMapped(sb, v, {}, v1, l1, Image(sb, freeblock, blocks, inodes[inum := din']), l2, inum, fbn, a, x);
      }
    }

    /** An address of the inode, from the next free block if it is 0. */
    method Addr(inum: nat, din: Inode, k: nat) returns (ok: bool, x: nat, din': Inode, ghost l: set<nat>)
      requires Open(sb, freeblock, blocks, inodes, inum, din) && k <= NDIRECT
      modifies this`freeblock
      ensures freeblock <= old(freeblock) + 1
      ensures !ok ==> freeblock == sb.size
      ensures ok ==> Open(sb, freeblock, blocks, inodes, inum, din')
      ensures ok ==>
        Acquired(sb, Image(sb, old(freeblock), blocks, inodes[inum := din]), {},
                 Image(sb, freeblock, blocks, inodes[inum := din']), l, inum, k, x, {})
      ensures ok && k == NDIRECT ==> x == din'.addrs[NDIRECT]
    {
      x, din', l := din.addrs[k], din, {};
      if x == 0 {
        if freeblock == sb.size {
          return false, 0, din, l;
        }
        x := freeblock;
        din' := din.(addrs := din.addrs[k := freeblock]);
        TakeAddr(sb, freeblock, blocks, inodes, inum, din, k, din', {});
        l := {} + {BBlock(sb, freeblock), freeblock} + {};
        freeblock := freeblock + 1;
      }
      return true, x, din', l;
    }

    /** An entry of the indirect block, from the next free block if it is 0. */
    method IndirectEntry(inum: nat, din: Inode, j: nat, a: nat, ghost l0: set<nat>)
      returns (ok: bool, x: nat, ghost l: set<nat>)
      requires Open(sb, freeblock, blocks, inodes, inum, din) && j < NINDIRECT && a == din.addrs[NDIRECT] != 0
      modifies this`blocks, this`freeblock
      ensures freeblock <= old(freeblock) + 1
      ensures !ok ==> freeblock == sb.size
      ensures ok ==> Open(sb, freeblock, blocks, inodes, inum, din)
      ensures ok ==>
        Acquired(sb, Image(sb, old(freeblock), old(blocks), inodes[inum := din]), l0,
                 Image(sb, freeblock, blocks, inodes[inum := din]), l,
                              inum, NDIRECT + 1 + j, x, {a})
    {
      ghost var v := Image(sb, freeblock, blocks, inodes[inum := din]);
      assert |v.blocks[a]| == BSIZE && v.inodes[inum] == din;
      x, l := Word(blocks[a], j), l0;
      assert Slot(sb, v, inum, NDIRECT + 1 + j) == x;
      if x == 0 {
        if freeblock == sb.size {
          return false, 0, l;
        }
        x := freeblock;
        TakeEntry(sb, freeblock, blocks, inodes, inum, din, j, blocks[a := SetWord(blocks[a], j, freeblock)], l0);
        l := l0 + {BBlock(sb, freeblock), freeblock} + {a};
        blocks := blocks[a := SetWord(blocks[a], j, freeblock)];
        freeblock := freeblock + 1;
      }
      return true, x, l;
    }

    /** A round of iappend's loop: m bytes of p, from off, into the block there. */
    method AppendPiece(inum: nat, din: Inode, p: seq<Byte>, off0: nat, off: nat, m: nat, ghost v0: Volume, ghost n: nat,
                       ghost off': nat, ghost n': nat)
      returns (ok: bool, din': Inode)
      requires Open(sb, freeblock, blocks, inodes, inum, din)
      requires Progress(sb, v0, Image(sb, freeblock, blocks, inodes[inum := din]), inum, off0, off, p, n)
      requires 0 < m <= BSIZE - off % BSIZE && off + m <= off0 + |p| && off / BSIZE <= n && off' == off + m
      requires n' == Max(n, off / BSIZE + 1)
      modifies this`blocks, this`freeblock
      ensures freeblock <= old(freeblock) + 2
      ensures !ok ==> freeblock == sb.size
      ensures ok ==> Open(sb, freeblock, blocks, inodes, inum, din')
      ensures ok ==> Progress(sb, v0, Image(sb, freeblock, blocks, inodes[inum := din']), inum, off0, off', p, n')
    {
      ghost var v := Image(sb, freeblock, blocks, inodes[inum := din]);
      var x;
      ok, x, din' := MapBlock(inum, din, off / BSIZE);
      if !ok {
        return;
      }
      ghost var v1 := Image(sb, freeblock, blocks, inodes[inum := din']);
      assert v1.bitmap[x] && x < freeblock;
      var data := Patched(blocks[x], p, off0, off, m);
      blocks := blocks[x := data];
      ghost var v2 := Image(sb, freeblock, blocks, inodes[inum := din']);
      assert v2 == v1.(blocks := v1.blocks[x := data]);
      WriteRound(sb, v0, v, v1, v2, inum, off0, off, m, p, n, off / BSIZE, x, data, off', n');
    }

    /** iappend: p goes at the end of the file; every other file is as it was. */
    method Iappend(inum: nat, p: seq<Byte>) returns (ok: bool)
      requires Valid() && inum < freeinode
      modifies this`inodes, this`blocks, this`freeblock
      ensures freeblock <= old(freeblock) + 2 * Rounds(old(inodes[inum].size), |p|)
      ensures !ok ==> old(inodes[inum].size) + |p| > MAXFILE * BSIZE || freeblock == sb.size
      ensures ok ==> Valid() && Extended(sb, old(View()), View(), inum, p)
    {
      var din := inodes[inum];
      var off := din.size;
      if off + |p| > MAXFILE * BSIZE {
        return false;
      }
      ghost var v0 := View();
      assert HoleFree(sb, v0, inum);
      ghost var n: nat;
      var end := off + |p|;
      ok, din, n := AppendBytes(inum, p, off, end, v0);
      if ok {
        CloseInode(inum, din, off, end, p, v0, n);
      }
    }

    /** iappend's loop. */
    method AppendBytes(inum: nat, p: seq<Byte>, off0: nat, end: nat, ghost v0: Volume)
      returns (ok: bool, din: Inode, ghost n: nat)
      requires sb.datastart <= freeblock <= sb.size && Untouched(sb, freeblock, blocks) && v0 == View() && Owned(sb, v0)
      requires inum < sb.ninodes && HoleFree(sb, v0, inum) && inodes[inum].size == off0
      requires end == off0 + |p| <= MAXFILE * BSIZE
      modifies this`blocks, this`freeblock
      ensures freeblock <= old(freeblock) + 2 * Rounds(off0, |p|)
      ensures !ok ==> freeblock == sb.size
      ensures ok ==> Open(sb, freeblock, blocks, inodes, inum, din) && n == BlocksFor(end)
      ensures ok ==> Progress(sb, v0, Image(sb, freeblock, blocks, inodes[inum := din]), inum, off0, end, p, n)
    {
      din := inodes[inum];
      var off := off0;
      ghost var rounds := 0;
      n := BlocksFor(off);
      assert inodes[inum := din] == inodes;
      ProgressStarts(sb, v0, inum, off, p, n);
      CountStarts(off, end, n);
      while off < end
        invariant Counted(off0, off, end, rounds, n) && freeblock <= old(freeblock) + 2 * rounds
        invariant Open(sb, freeblock, blocks, inodes, inum, din)
        invariant Progress(sb, v0, Image(sb, freeblock, blocks, inodes[inum := din]), inum, off0, off, p, n)
      {
        var m := RoundLength(off, end - off);
        var off' := off + m;
        ghost var n', rounds' := Max(n, off / BSIZE + 1), rounds + 1;
        CountRound(off0, off, end, m, rounds, n, off', rounds', n');
        ok, din := AppendPiece(inum, din, p, off0, off, m, v0, n, off', n');
        if !ok {
          return;
        }
        off, n, rounds := off', n', rounds';
      }
      CountEnds(off0, |p|, off, end, rounds, n);
      ok := true;
    }

    /** iappend's last part: the inode goes back with its new size. */
    method CloseInode(inum: nat, din: Inode, off0: nat, off: nat, ghost p: seq<Byte>, ghost v0: Volume, ghost n: nat)
      requires Open(sb, freeblock, blocks, inodes, inum, din)
      requires Progress(sb, v0, Image(sb, freeblock, blocks, inodes[inum := din]), inum, off0, off, p, n)
      requires Sound(sb, v0) && v0.inodes == inodes && off0 == inodes[inum].size && off == off0 + |p|
      requires n == BlocksFor(off)
      requires 1 <= freeinode && inum < freeinode <= sb.ninodes
      requires forall i :: freeinode <= i < sb.ninodes ==> inodes[i] == BLANK
      modifies this`inodes
      ensures Valid() && Extended(sb, v0, View(), inum, p)
    {
      ghost var v := Image(sb, freeblock, blocks, inodes[inum := din]);
      inodes := inodes[inum := din.(size := off)];
      AppendCompletes(sb, v0, v, View(), inum, din, off0, off, p, n);
    }

    /** Copies a file in, a block at a time. */
    method CopyFile(inum: nat, bytes: seq<Byte>) returns (ok: bool)
      requires Valid() && inum < freeinode && inodes[inum].size == 0
      modifies this`inodes, this`blocks, this`freeblock
      ensures bytes == [] ==> freeblock == old(freeblock)
      ensures !ok ==> |bytes| > MAXFILE * BSIZE || freeblock == sb.size
      ensures ok ==> Valid() && Extended(sb, old(View()), View(), inum, bytes)
    {
      ghost var v0 := View();
      var i := 0;
      ExtendedNone(sb, v0, inum);
      while i < |bytes|
        invariant 0 <= i <= |bytes| && Valid() && Extended(sb, v0, View(), inum, bytes[..i]) && inodes[inum].size == i
        invariant i == 0 ==> freeblock == old(freeblock)
      {
        var cc := if |bytes| - i < BSIZE then |bytes| - i else BSIZE;
        ghost var v := View();
        ok := Iappend(inum, bytes[i..i + cc]);
        if !ok {
          return;
        }
        ExtendedMore(sb, v0, v, View(), inum, bytes, i, i + cc);
        assert inodes[inum].size == |Contents(sb, View(), inum)|;
        i := i + cc;
      }
      assert bytes[..i] == bytes;
      return true;
    }

    /** The root's "." and "..". */
    method AddDots() returns (ok: bool)
      requires Valid() && freeinode == 2 && sb.ninodes < 0x1_0000 && inodes[ROOTINO].size == 0
      modifies this`inodes, this`blocks, this`freeblock
      ensures freeblock <= old(freeblock) + 4
      ensures !ok ==> freeblock == sb.size
      ensures ok ==> Valid() && Contents(sb, View(), ROOTINO) == RootContents([])
      ensures ok ==> inodes[ROOTINO].(addrs := [], size := 0) == old(inodes[ROOTINO]).(addrs := [], size := 0)
    {
      ghost var v := View();
      OneRound(0);
      OneRound(16);
      ok := Iappend(ROOTINO, DirentBytes(ROOTINO, ['.' as Byte]));
      if !ok {
        return;
      }
      ok := Iappend(ROOTINO, DirentBytes(ROOTINO, ['.' as Byte, '.' as Byte]));
      assert Contents(sb, v, ROOTINO) == [];
    }

    /** The root's size is rounded up by a whole block. */
    method FixRoot()
      requires |inodes| > ROOTINO
      modifies this`inodes
      ensures inodes ==
        old(inodes)[ROOTINO := old(inodes)[ROOTINO].(size := (old(inodes)[ROOTINO].size / BSIZE + 1) * BSIZE)]
    {
      var din := inodes[ROOTINO];
      var off := (din.size / BSIZE + 1) * BSIZE;
      inodes := inodes[ROOTINO := din.(size := off)];
    }

    /** balloc: the bitmap, whose first block it writes and whose others stay zero; false if one block will not do. */
    method Balloc() returns (ok: bool, bits: seq<bool>)
      requires freeblock <= sb.size
      ensures ok <==> freeblock < BPB
      ensures ok ==> bits == Used(sb.size, freeblock)
    {
      bits := seq(sb.size, _ => false);
      if freeblock >= BPB {
        return false, bits;
      }
      var i := 0;
      while i < freeblock
        invariant 0 <= i <= freeblock && |bits| == sb.size && forall b :: 0 <= b < sb.size ==> bits[b] == (b < i)
      {
        bits := bits[i := true];
        i := i + 1;
      }
      return true, bits;
    }
  }

  lemma ExtendedNone(sb: Super, v: Volume, i: nat)
    requires Sound(sb, v) && i < sb.ninodes
    ensures Extended(sb, v, v, i, [])
  {
  }

  lemma ExtendedMore(sb: Super, v0: Volume, v: Volume, v': Volume, i: nat, bytes: seq<Byte>, a: nat, b: nat)
    requires a <= b <= |bytes| && Extended(sb, v0, v, i, bytes[..a]) && Extended(sb, v, v', i, bytes[a..b])
    ensures Extended(sb, v0, v', i, bytes[..b])
  {
    Concat(Contents(sb, v0, i), bytes, a, b);
    forall j | 0 <= j < sb.ninodes && j != i
      ensures v'.inodes[j].(addrs := []) == v0.inodes[j].(addrs := []) && Contents(sb, v', j) == Contents(sb, v0, j)
    {
      KeptContents(sb, v0, v, i, j);
      KeptContents(sb, v, v', i, j);
    }
  }

  lemma Concat(c: seq<Byte>, bytes: seq<Byte>, a: nat, b: nat)
    requires a <= b <= |bytes|
    ensures c + bytes[..a] + bytes[a..b] == c + bytes[..b]
  {
  }

  /** struct dirent: a 16-bit inode number and a name cut or padded to DIRSIZ bytes. */
  function DirentBytes(inum: nat, name: seq<Byte>): (d: seq<Byte>)
    requires inum < 0x1_0000
    ensures |d| == 16
  {
    [(inum % 0x100) as Byte, (inum / 0x100) as Byte]
      + seq(DIRSIZ, i requires 0 <= i < DIRSIZ => if i < |name| then name[i] else 0)
  }

  /** The root's entries: its dots, then a file in each of the inodes from 2. */
  function RootContents(names: seq<seq<Byte>>): (r: seq<Byte>)
    requires |names| + 2 < 0x1_0000
    ensures |r| == 16 * (|names| + 2)
  {
    if names == [] then DirentBytes(ROOTINO, ['.' as Byte]) + DirentBytes(ROOTINO, ['.' as Byte, '.' as Byte])
    else RootContents(names[..|names| - 1]) + DirentBytes(|names| + 1, names[|names| - 1])
  }

  /** Inode i has the type and one link. */
  predicate Typed(v: Volume, i: nat, typ: int)
  {
    i < |v.inodes| && v.inodes[i].typ == typ && v.inodes[i].nlink == 1
  }

  /** The first k files are in the inodes from 2. */
  ghost predicate FilesHeld(sb: Super, v: Volume, files: seq<seq<Byte>>, k: nat)
  {
    && Sound(sb, v) && k <= |files| && k + 2 <= sb.ninodes
    && forall j {:trigger HeldFile(sb, v, files, j)} :: 0 <= j < k ==> HeldFile(sb, v, files, j)
  }

  ghost predicate HeldFile(sb: Super, v: Volume, files: seq<seq<Byte>>, j: nat)
    requires Sound(sb, v) && j < |files| && j + 2 < sb.ninodes
  {
    Typed(v, j + 2, T_FILE) && Contents(sb, v, j + 2) == files[j]
  }

  /** The root, a directory, lists the first k files, and each is a file with its bytes. */
  ghost predicate Holds(sb: Super, v: Volume, names: seq<seq<Byte>>, files: seq<seq<Byte>>, k: nat)
  {
    && Sound(sb, v) && |names| == |files| && |files| + 2 <= sb.ninodes < 0x1_0000 && k <= |files|
    && Typed(v, ROOTINO, T_DIR) && Contents(sb, v, ROOTINO) == RootContents(names[..k])
    && FilesHeld(sb, v, files, k)
  }

  /** File k added: an entry in the root, and the bytes. */
  lemma HoldsNext(sb: Super, v1: Volume, v2: Volume, v3: Volume, names: seq<seq<Byte>>, files: seq<seq<Byte>>, k: nat)
    requires Holds(sb, v1, names, files, k) && k < |files| && v1.inodes[k + 2].size == 0 && Typed(v1, k + 2, T_FILE)
    requires Extended(sb, v1, v2, ROOTINO, DirentBytes(k + 2, names[k])) && Extended(sb, v2, v3, k + 2, files[k])
    ensures Holds(sb, v3, names, files, k + 1)
  {
    RootNext(names, k);
    FileAdded(sb, v1, v2, v3, ROOTINO, k + 2, DirentBytes(k + 2, names[k]), files[k]);
    TypedStill(sb, v1, v2, v3, ROOTINO, k + 2, DirentBytes(k + 2, names[k]), files[k]);
    FilesStill(sb, v1, v2, v3, files, k);
    OneMoreHeld(sb, v3, files, k);
  }

  lemma FilesStill(sb: Super, v1: Volume, v2: Volume, v3: Volume, files: seq<seq<Byte>>, k: nat)
    requires FilesHeld(sb, v1, files, k) && OtherFilesKept(sb, v1, v2, ROOTINO) && OtherFilesKept(sb, v2, v3, k + 2)
    ensures FilesHeld(sb, v3, files, k)
  {
    forall j | 0 <= j < k
      ensures HeldFile(sb, v3, files, j)
    {
      assert HeldFile(sb, v1, files, j);
      OldFile(sb, v1, v2, v3, ROOTINO, k + 2, j + 2);
    }
  }

  lemma OneMoreHeld(sb: Super, v: Volume, files: seq<seq<Byte>>, k: nat)
    requires FilesHeld(sb, v, files, k) && k < |files| && k + 2 < sb.ninodes && Typed(v, k + 2, T_FILE)
    requires Contents(sb, v, k + 2) == files[k]
    ensures FilesHeld(sb, v, files, k + 1)
  {
  }

  lemma OldFile(sb: Super, v1: Volume, v2: Volume, v3: Volume, r: nat, i: nat, j: nat)
    requires OtherFilesKept(sb, v1, v2, r) && OtherFilesKept(sb, v2, v3, i) && j < sb.ninodes && j != r && j != i
    requires Typed(v1, j, T_FILE)
    ensures Typed(v3, j, T_FILE) && Contents(sb, v3, j) == Contents(sb, v1, j)
  {
    KeptContents(sb, v1, v2, r, j);
    KeptContents(sb, v2, v3, i, j);
    SameType(v1.inodes[j], v2.inodes[j]);
    SameType(v2.inodes[j], v3.inodes[j]);
  }

  lemma TypedStill(sb: Super, v1: Volume, v2: Volume, v3: Volume, r: nat, i: nat, entry: seq<Byte>, bytes: seq<Byte>)
    requires Extended(sb, v1, v2, r, entry) && Extended(sb, v2, v3, i, bytes) && r != i
    requires Typed(v1, r, T_DIR) && Typed(v1, i, T_FILE)
    ensures Typed(v3, r, T_DIR) && Typed(v3, i, T_FILE)
  {
    KeptContents(sb, v1, v2, r, i);
    KeptContents(sb, v2, v3, i, r);
    SameType(v1.inodes[r], v2.inodes[r]);
    SameType(v2.inodes[r], v3.inodes[r]);
    SameType(v1.inodes[i], v2.inodes[i]);
    SameType(v2.inodes[i], v3.inodes[i]);
  }

  lemma SameType(x: Inode, y: Inode)
    requires x.(addrs := [], size := 0) == y.(addrs := [], size := 0) || x.(addrs := []) == y.(addrs := [])
    ensures x.typ == y.typ && x.nlink == y.nlink
  {
    assert x.(addrs := [], size := 0).typ == x.typ && x.(addrs := []).nlink == x.nlink;
  }

  ghost predicate SameContents(sb: Super, v: Volume, v': Volume)
  {
    Sound(sb, v) && Sound(sb, v') && forall j :: 0 <= j < sb.ninodes ==> Contents(sb, v', j) == Contents(sb, v, j)
  }

  lemma HoldsStill(sb: Super, v: Volume, v': Volume, names: seq<seq<Byte>>, files: seq<seq<Byte>>, k: nat, x: Inode)
    requires Holds(sb, v, names, files, k) && SameContents(sb, v, v') && k < |files|
    requires v'.inodes == v.inodes[k + 2 := x]
    ensures Holds(sb, v', names, files, k)
  {
    forall j | 0 <= j < k
      ensures HeldFile(sb, v', files, j)
    {
      assert HeldFile(sb, v, files, j);
    }
  }

  lemma RootNext(names: seq<seq<Byte>>, k: nat)
    requires k < |names| && |names| + 2 < 0x1_0000
    ensures RootContents(names[..k + 1]) == RootContents(names[..k]) + DirentBytes(k + 2, names[k])
  {
    var all := names[..k + 1];
    assert all[..k] == names[..k] && all[k] == names[k];
  }

  /** An entry in the root r, then bytes in the empty file i. */
  lemma FileAdded(sb: Super, v1: Volume, v2: Volume, v3: Volume, r: nat, i: nat, entry: seq<Byte>, bytes: seq<Byte>)
    requires Extended(sb, v1, v2, r, entry) && Extended(sb, v2, v3, i, bytes) && r != i && v1.inodes[i].size == 0
    ensures Contents(sb, v3, r) == Contents(sb, v1, r) + entry && Contents(sb, v3, i) == bytes
  {
    KeptContents(sb, v2, v3, i, r);
    KeptContents(sb, v1, v2, r, i);
    assert Contents(sb, v1, i) == [];
    assert [] + bytes == bytes;
  }

  lemma KeptContents(sb: Super, v: Volume, v': Volume, i: nat, j: nat)
    requires OtherFilesKept(sb, v, v', i) && j < sb.ninodes && j != i
    ensures Contents(sb, v', j) == Contents(sb, v, j) && v'.inodes[j].(addrs := []) == v.inodes[j].(addrs := [])
  {
  }

  /** mkfs: builds the image, rounds the root up, and writes the bitmap. */
  method Make(sb: Super, names: seq<seq<Byte>>, files: seq<seq<Byte>>)
    returns (ok: bool, img: Builder, bits: seq<bool>, ghost v: Volume)
    requires 0 < sb.datastart <= sb.size < UINT && |names| == |files| && |files| + 2 <= sb.ninodes < 0x1_0000
    ensures AllEmpty(files) ==> img.freeblock <= sb.datastart + 4 + 2 * |files|
    ensures !ok ==> img.freeblock >= sb.size || img.freeblock >= BPB || TooLarge(files)
    ensures ok ==> Holds(sb, v, names, files, |files|)
    ensures ok ==>
      Volume(bits, img.blocks, img.inodes) == Rounded(v) && (Sound(sb, Rounded(v)) <==> (|files| + 2) % 32 != 0)
  {
    img := new Builder(sb);
    bits := [];
    v := img.View();
    var root := img.Ialloc(T_DIR);
    ok := img.AddDots();
    if !ok {
      return;
    }
    ok := AddFiles(img, names, files);
    v := img.View();
    if !ok {
      return;
    }
    ok, bits := Close(img, names, files);
  }

  predicate AllEmpty(files: seq<seq<Byte>>)
  {
    forall k :: 0 <= k < |files| ==> files[k] == []
  }

  /** mkfs's last part. */
  method Close(img: Builder, names: seq<seq<Byte>>, files: seq<seq<Byte>>) returns (ok: bool, bits: seq<bool>)
    requires img.Valid() && Holds(img.sb, img.View(), names, files, |files|)
    modifies img`inodes
    ensures ok <==> img.freeblock < BPB
    ensures ok ==> Volume(bits, img.blocks, img.inodes) == Rounded(old(img.View()))
    ensures Sound(img.sb, Rounded(old(img.View()))) <==> (|files| + 2) % 32 != 0
  {
    Finished(img.sb, img.View(), names, files);
    img.FixRoot();
    ok, bits := img.Balloc();
  }

  /** The failing case is no oddity of the numbers: on a disk of the size mkfs makes, thirty empty files give an image
      whose root has a hole. */
  method ImageWithHole() returns (img: Builder, bits: seq<bool>)
    ensures !Sound(Super(1000, 200, 32, 58, 59), Volume(bits, img.blocks, img.inodes))
  {
    var sb := Super(1000, 200, 32, 58, 59);
    var files: seq<seq<Byte>> := seq(30, _ => []);
    var ok; ghost var v;
    ok, img, bits, v := Make(sb, files, files);
  }

  /** The root's size rounded up by a whole block. */
  function Rounded(v: Volume): (v': Volume)
    requires |v.inodes| > ROOTINO
  {
    v.(inodes := v.inodes[ROOTINO := v.inodes[ROOTINO].(size := (v.inodes[ROOTINO].size / BSIZE + 1) * BSIZE)])
  }

  lemma Finished(sb: Super, v: Volume, names: seq<seq<Byte>>, files: seq<seq<Byte>>)
    requires Holds(sb, v, names, files, |files|)
    ensures Sound(sb, Rounded(v)) <==> (|files| + 2) % 32 != 0
  {
    RoundRootExactly(sb, v, Rounded(v), ROOTINO);
    RootBytes(|files|);
    assert v.inodes[ROOTINO].size == |Contents(sb, v, ROOTINO)|;
  }

  /** A file, or the root with an entry for each, would be longer than a file can be. */
  predicate TooLarge(files: seq<seq<Byte>>)
  {
    16 * (|files| + 2) > MAXFILE * BSIZE || exists k :: 0 <= k < |files| && |files[k]| > MAXFILE * BSIZE
  }

  method AddFiles(img: Builder, names: seq<seq<Byte>>, files: seq<seq<Byte>>) returns (ok: bool)
    requires img.Valid() && img.freeinode == 2 && Holds(img.sb, img.View(), names, files, 0)
    modifies img`inodes, img`blocks, img`freeblock, img`freeinode
    ensures AllEmpty(files) ==> img.freeblock <= old(img.freeblock) + 2 * |files|
    ensures !ok ==> img.freeblock == img.sb.size || TooLarge(files)
    ensures ok ==> img.Valid() && Holds(img.sb, img.View(), names, files, |files|)
  {
    var k := 0;
    while k < |files|
      invariant 0 <= k <= |files| && img.Valid() && img.freeinode == k + 2 && Holds(img.sb, img.View(), names, files, k)
      invariant AllEmpty(files) ==> img.freeblock <= old(img.freeblock) + 2 * k
    {
      ok := AddFile(img, names, files, k);
      if !ok {
        return;
      }
      k := k + 1;
    }
    return true;
  }

  method AddFile(img: Builder, names: seq<seq<Byte>>, files: seq<seq<Byte>>, k: nat) returns (ok: bool)
    requires img.Valid() && k < |files| && img.freeinode == k + 2 && Holds(img.sb, img.View(), names, files, k)
    modifies img`inodes, img`blocks, img`freeblock, img`freeinode
    ensures files[k] == [] ==> img.freeblock <= old(img.freeblock) + 2
    ensures !ok ==> img.freeblock == img.sb.size || TooLarge(files)
    ensures ok ==> img.Valid() && img.freeinode == k + 3 && Holds(img.sb, img.View(), names, files, k + 1)
  {
    ghost var v := img.View();
    var inum := img.Ialloc(T_FILE);
    ghost var v1 := img.View();
    HoldsStill(img.sb, v, v1, names, files, k, img.inodes[inum]);
    assert v1.inodes[ROOTINO].size == |Contents(img.sb, v1, ROOTINO)| == 16 * (k + 2);
    OneRound(16 * (k + 2));
    ok := img.Iappend(ROOTINO, DirentBytes(inum, names[k]));
    if !ok {
      return;
    }
    ghost var v2 := img.View();
    StillEmpty(img.sb, v1, v2, ROOTINO, inum);
    ok := img.CopyFile(inum, files[k]);
    if ok {
      HoldsNext(img.sb, v1, v2, img.View(), names, files, k);
    }
  }

  lemma StillEmpty(sb: Super, v: Volume, v': Volume, r: nat, i: nat)
    requires OtherFilesKept(sb, v, v', r) && i < sb.ninodes && i != r && v.inodes[i].size == 0
    ensures v'.inodes[i].size == 0
  {
    assert v'.inodes[i].(addrs := []) == v.inodes[i].(addrs := []);
  }
}
