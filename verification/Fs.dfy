/** fs.c's block and inode layer, in place: balloc, bfree, bmap, itrunc, iupdate, readi, writei.

    `logged` is the set of block numbers passed to log_write since begin_op. Where the source panics
    the method returns false or None, which ends the run. */
module Fs {
  import opened Volume
  import opened Params

  /** A locked in-memory inode. */
  class InodeRef {
    const inum: nat
    var typ: int
    var major: int
    var nlink: int
    var size: nat
    var addrs: seq<nat>

    constructor (inum: nat, d: Inode)
      ensures this.inum == inum && Value() == d
    {
      this.inum := inum;
      typ, major, nlink, size, addrs := d.typ, d.major, d.nlink, d.size, d.addrs;
    }

    function Value(): (d: Inode)
      reads this
    {
      Inode(typ, major, nlink, size, addrs)
    }
  }

  const T_DEV := 3
  const NDEV := 10

  /** The result of readi and writei: -1, a byte count, a call of a device's handler, or a panic. */
  datatype Io = Err | Done(n: nat) | Device(major: int) | Panic

  /** Dispatch to a device: -1 if the major number is out of range or has no handler. */
  function DeviceIo(major: int, handlers: set<int>): (r: Io)
    ensures r == Err <==> major < 0 || major >= NDEV || major !in handlers
  {
    if major < 0 || major >= NDEV || major !in handlers then Err else Device(major)
  }

  predicate Full(bitmap: seq<bool>)
  {
    forall b :: 0 <= b < |bitmap| ==> bitmap[b]
  }

  method JoinSlices(ghost c: seq<Byte>, ghost a: nat, ghost b: nat, ghost d: nat, left: seq<Byte>, right: seq<Byte>)
    returns (both: seq<Byte>)
    requires a <= b <= d <= |c| && left == c[a..b] && right == c[b..d]
    ensures both == c[a..d]
  {
    both := left + right;
  }

  /** Where writei's loop is at offset off: blocks up to hi are written, and the file, of n0 blocks before, has n. */
  predicate LoopAt(off0: nat, off: nat, end: nat, n0: nat, n: nat, hi: nat)
  {
    && off0 <= off <= end && n == Max(n0, hi)
    && (off < end ==> hi == off / BSIZE) && (off > off0 ==> hi == BlocksFor(off))
  }

  lemma LoopStarts(off: nat, end: nat, n0: nat, n: nat, hi: nat)
    requires off < end && n == n0 && hi == off / BSIZE <= n0
    ensures LoopAt(off, off, end, n0, n, hi)
  {
  }

  lemma LoopNext(off0: nat, off: nat, end: nat, n0: nat, n: nat, hi: nat, m: nat, off': nat, n': nat, hi': nat)
    requires LoopAt(off0, off, end, n0, n, hi) && off < end && m == RoundLength(off, end - off)
    requires off' == off + m && hi' == hi + 1 && n' == Max(n, hi')
    ensures LoopAt(off0, off', end, n0, n', hi') && hi == off / BSIZE && n0 <= n'
    ensures n' <= Max(n0, BlocksFor(end))
  {
    assert BlocksFor(off') <= BlocksFor(end);
  }

  /** A round that finds too few blocks free means that the whole write lacks blocks. */
  lemma PieceFails(sb: Super, v0: Volume, l0: set<nat>, v: Volume, l: set<nat>, i: nat, off0: nat, off: nat,
                   src: seq<Byte>, n0: nat, n: nat, bn: nat, n': nat, more: nat)
    requires Writing(sb, v0, l0, v, l, i, off0, off, src, n0, n, bn) && bn < MAXFILE && n' == Max(n, bn + 1)
    requires FreeCount(v.bitmap) < BmapNeeds(sb, v, i, bn) && n0 <= n' <= more
    ensures Lacking(v0.bitmap, n0, more)
  {
    PaidShort(sb, v0, l0, v, l, i, n0, n, bn, n');
  }

  lemma LoopEnds(off0: nat, off: nat, end: nat, n0: nat, n: nat, hi: nat)
    requires LoopAt(off0, off, end, n0, n, hi) && off >= end > off0
    ensures off == end && hi == BlocksFor(end) && n == Max(n0, hi)
  {
  }

  class FileSystem {
    const sb: Super
    var bitmap: seq<bool>
    var blocks: seq<Block>
    var dinodes: seq<Inode>
    ghost var logged: set<nat>

    constructor (sb: Super, v: Volume)
      ensures this.sb == sb && Volume(bitmap, blocks, dinodes) == v && logged == {}
    {
      this.sb := sb;
      bitmap, blocks, dinodes := v.bitmap, v.blocks, v.inodes;
      logged := {};
    }

    /** The volume as it stands with ip's in-memory fields in place of its disk inode. */
    ghost function View(ip: InodeRef): (v: Volume)
      reads this, ip
    {
      Volume(bitmap, blocks, if ip.inum < |dinodes| then dinodes[ip.inum := ip.Value()] else dinodes)
    }

    /** Zeroes a block. */
    method Bzero(b: nat)
      requires b < |blocks|
      modifies this`blocks, this`logged
      ensures blocks == old(blocks)[b := ZeroBlock()] && logged == old(logged) + {b}
    {
      blocks := blocks[b := ZeroBlock()];
      logged := logged + {b};
    }

    /** The lowest free block, marked in use and zeroed; 0 if every bit is set. */
    method Balloc() returns (r: nat)
      requires |bitmap| == sb.size && |blocks| == sb.size && 0 < sb.size && bitmap[0]
      modifies this`bitmap, this`blocks, this`logged
      ensures r == 0 ==> Full(bitmap) && bitmap == old(bitmap) && blocks == old(blocks) && logged == old(logged)
      ensures r != 0 ==> r < sb.size && !old(bitmap[r]) && (forall b :: 0 <= b < r ==> old(bitmap[b]))
      ensures r != 0 ==> bitmap == old(bitmap)[r := true] && blocks == old(blocks)[r := ZeroBlock()]
      ensures r != 0 ==> logged == old(logged) + {BBlock(sb, r), r}
      ensures r != 0 ==> Charged(sb, old(bitmap), old(blocks), old(logged), bitmap, blocks, logged, 1)
      ensures r == 0 <==> FreeCount(old(bitmap)) == 0
    {
      var b := 0;
      while b < sb.size
        invariant bitmap == old(bitmap) && blocks == old(blocks) && logged == old(logged)
        invariant forall x :: 0 <= x < b && x < sb.size ==> bitmap[x]
        invariant b % BPB == 0
      {
        var bi := 0;
        while bi < BPB && b + bi < sb.size
          invariant 0 <= bi <= BPB
          invariant bitmap == old(bitmap) && blocks == old(blocks) && logged == old(logged)
          invariant forall x :: 0 <= x < b + bi && x < sb.size ==> bitmap[x]
        {
          if !bitmap[b + bi] {
            bitmap := bitmap[b + bi := true];
            assert BBlock(sb, b + bi) == BBlock(sb, b);
            logged := logged + {BBlock(sb, b)};
            Bzero(b + bi);
            ChargedBlock(sb, old(bitmap), old(blocks), old(logged), b + bi, bitmap, blocks, logged);
            return b + bi;
          }
          bi := bi + 1;
        }
        b := b + BPB;
      }
      FreeCountNone(bitmap);
      return 0;
    }

    /** Clears a block's bit; false where the source panics with "freeing free block". */
    method Bfree(b: nat) returns (ok: bool)
      requires b < |bitmap|
      modifies this`bitmap, this`logged
      ensures ok <==> old(bitmap[b])
      ensures bitmap == old(bitmap)[b := false]
      ensures logged == if ok then old(logged) + {BBlock(sb, b)} else old(logged)
    {
      if !bitmap[b] {
        return false;
      }
      bitmap := bitmap[b := false];
      logged := logged + {BBlock(sb, b)};
      return true;
    }

    /** Copies the in-memory inode to disk. */
    method Iupdate(ip: InodeRef)
      requires ip.inum < |dinodes|
      modifies this`dinodes, this`logged
      ensures dinodes == old(dinodes)[ip.inum := ip.Value()]
      ensures logged == old(logged) + {IBlock(sb, ip.inum)}
    {
      dinodes := dinodes[ip.inum := ip.Value()];
      logged := logged + {IBlock(sb, ip.inum)};
    }

    /** The block in slot k of the inode itself, allocated if there is none; 0 where balloc panics. */
    method AddrOrBalloc(ip: InodeRef, k: nat) returns (addr: nat)
      requires Owned(sb, View(ip)) && ip.inum < sb.ninodes && k <= NDIRECT
      modifies this`bitmap, this`blocks, this`logged, ip`addrs
      ensures addr != 0 <==> Got(sb, old(View(ip)), old(logged), View(ip), logged, ip.inum, k, addr, {})
      ensures old(Slot(sb, View(ip), ip.inum, k)) != 0 ==> addr != 0
      ensures addr == 0 ==> Full(bitmap) && bitmap == old(bitmap) && FreeCount(bitmap) == 0
    {
      ghost var v := View(ip);
      assert |v.inodes[ip.inum].addrs| == NDIRECT + 1;
      addr := ip.addrs[k];
      ChargedNone(sb, bitmap, blocks, logged);
      if addr == 0 {
        addr := Balloc();
        if addr == 0 {
          return;
        }
        ip.addrs := ip.addrs[k := addr];
        assert View(ip) == Volume(v.bitmap[addr := true], v.blocks[addr := ZeroBlock()],
          v.inodes[ip.inum := v.inodes[ip.inum].(addrs := v.inodes[ip.inum].addrs[k := addr])]);
        ClaimInode(sb, v, ip.inum, k, addr);
        ClaimKeepsOwned(sb, v, View(ip), ip.inum, k, addr);
      }
    }

    /** The block in entry k - 13 of the inode's indirect block, allocated if there is none. */
    method EntryOrBalloc(ip: InodeRef, k: nat, indirect: nat) returns (addr: nat)
      requires Owned(sb, View(ip)) && ip.inum < sb.ninodes && NDIRECT < k < SLOTS
      requires Slot(sb, View(ip), ip.inum, NDIRECT) == indirect != 0
      modifies this`bitmap, this`blocks, this`logged
      ensures addr != 0 ==> Got(sb, old(View(ip)), old(logged), View(ip), logged, ip.inum, k, addr, {indirect})
      ensures old(Slot(sb, View(ip), ip.inum, k)) != 0 ==> addr != 0
      ensures addr == 0 ==> Full(bitmap) && bitmap == old(bitmap) && FreeCount(bitmap) == 0
    {
      ghost var v := View(ip);
      var j := k - NDIRECT - 1;
      var a := blocks[indirect];
      addr := Word(a, j);
      ChargedNone(sb, bitmap, blocks, logged);
      if addr == 0 {
        addr := Balloc();
        if addr == 0 {
          return;
        }
        ghost var bits1, blocks1, l1 := bitmap, blocks, logged;
        blocks := blocks[indirect := SetWord(a, j, addr)];
        logged := logged + {indirect};
        ChargedWrite(sb, bitmap, blocks1, l1, indirect, SetWord(a, j, addr), blocks, logged);
        ChargedTwice(sb, old(bitmap), old(blocks), old(logged), bits1, blocks1, l1, bitmap, blocks, logged, 1, 0, 1);
        assert View(ip) == v.(bitmap := v.bitmap[addr := true],
          blocks := v.blocks[addr := ZeroBlock()][indirect := SetWord(v.blocks[indirect], j, addr)]);
        ClaimEntry(sb, v, ip.inum, j, addr);
        ClaimKeepsOwned(sb, v, View(ip), ip.inum, k, addr);
      }
    }

    /** The disk block of the file's bn-th block, allocated (and first the indirect block, if that is
        missing) if there is none; 0 where balloc panics. */
    method Bmap(ip: InodeRef, bn: nat) returns (addr: nat)
      requires Owned(sb, View(ip)) && ip.inum < sb.ninodes && bn < MAXFILE
      modifies this`bitmap, this`blocks, this`logged, ip`addrs
      ensures addr != 0 <==> Bgot(sb, old(View(ip)), old(logged), View(ip), logged, ip.inum, bn, addr)
      ensures addr == 0 ==> Full(bitmap) && FreeCount(old(bitmap)) < old(BmapNeeds(sb, View(ip), ip.inum, bn))
    {
      ghost var v, l := View(ip), logged;
      if bn < NDIRECT {
        addr := AddrOrBalloc(ip, bn);
        if addr != 0 {
          DirectGot(sb, v, l, View(ip), logged, ip.inum, bn, addr);
        }
        return;
      }
      addr := BmapIndirect(ip, bn);
    }

    /** bmap past the direct blocks. */
    method BmapIndirect(ip: InodeRef, bn: nat) returns (addr: nat)
      requires Owned(sb, View(ip)) && ip.inum < sb.ninodes && NDIRECT <= bn < MAXFILE
      modifies this`bitmap, this`blocks, this`logged, ip`addrs
      ensures addr != 0 <==> Bgot(sb, old(View(ip)), old(logged), View(ip), logged, ip.inum, bn, addr)
      ensures addr == 0 ==> Full(bitmap) && FreeCount(old(bitmap)) < old(BmapNeeds(sb, View(ip), ip.inum, bn))
    {
      ghost var v, l := View(ip), logged;
      var indirect := AddrOrBalloc(ip, NDIRECT);
      if indirect == 0 {
        return 0;
      }
      ghost var v1, l1 := View(ip), logged;
      addr := EntryOrBalloc(ip, bn + 1, indirect);
      if addr != 0 {
        IndirectGot(sb, v, l, v1, l1, View(ip), logged, ip.inum, bn, indirect, addr);
      } else {
        IndirectShort(sb, v, l, v1, l1, ip.inum, bn, indirect);
      }
    }

    /** bfree of slot k of ip, skipped if the slot is empty. */
    method FreeSlot(ghost v: Volume, ghost i: nat, ghost lo: nat, ghost k: nat, ghost done: nat, b: nat)
      returns (ok: bool)
      requires Owned(sb, v) && i < sb.ninodes && lo <= k < SLOTS && done <= lo && b == Slot(sb, v, i, k)
      requires |bitmap| == sb.size
      requires forall x :: 0 <= x < sb.size ==>
        (bitmap[x] <==> v.bitmap[x] && !OwnedIn(sb, v, i, 0, done, x) && !OwnedIn(sb, v, i, lo, k, x))
      requires k >= done
      modifies this`bitmap, this`logged
      ensures ok && |bitmap| == sb.size
      ensures forall x :: 0 <= x < sb.size ==>
        (bitmap[x] <==> v.bitmap[x] && !OwnedIn(sb, v, i, 0, done, x) && !OwnedIn(sb, v, i, lo, k + 1, x))
    {
      ok := true;
      if b != 0 {
        assert forall k' :: 0 <= k' < SLOTS && Owner(sb, v, i, k', b) ==> Both(i, k, i, k');
        ok := Bfree(b);
      }
      forall x | 0 <= x < sb.size
        ensures OwnedIn(sb, v, i, lo, k + 1, x) <==> OwnedIn(sb, v, i, lo, k, x) || (x != 0 && b == x)
      {
        ReleaseOne(sb, v, i, lo, k, x);
      }
    }

    /** bfree of every entry of the indirect block, after the direct slots. */
    method FreeEntries(ghost v: Volume, ghost i: nat, indirect: nat)
      requires Owned(sb, v) && i < sb.ninodes && Slot(sb, v, i, NDIRECT) == indirect != 0
      requires |bitmap| == sb.size && blocks == v.blocks
      requires forall x :: 0 <= x < sb.size ==> (bitmap[x] <==> v.bitmap[x] && !OwnedIn(sb, v, i, 0, NDIRECT, x))
      modifies this`bitmap, this`logged
      ensures |bitmap| == sb.size
      ensures forall x :: 0 <= x < sb.size ==>
        (bitmap[x] <==> v.bitmap[x] && !OwnedIn(sb, v, i, 0, NDIRECT, x) && !OwnedIn(sb, v, i, NDIRECT + 1, SLOTS, x))
    {
      var a := blocks[indirect];
      var j := 0;
      while j < NINDIRECT
        invariant 0 <= j <= NINDIRECT && |bitmap| == sb.size
        invariant forall x :: 0 <= x < sb.size ==>
          (bitmap[x] <==>
           v.bitmap[x] && !OwnedIn(sb, v, i, 0, NDIRECT, x) && !OwnedIn(sb, v, i, NDIRECT + 1, NDIRECT + 1 + j, x))
      {
        var ok := FreeSlot(v, i, NDIRECT + 1, NDIRECT + 1 + j, NDIRECT, Word(a, j));
        j := j + 1;
      }
    }

    /** Discards the file's contents: every block it owns is freed, once, and none of the frees can hit
        a block that is already free. */
    method Itrunc(ip: InodeRef) returns (ok: bool)
      requires Owned(sb, View(ip)) && ip.inum < sb.ninodes
      modifies this`bitmap, this`logged, this`dinodes, ip`addrs, ip`size
      ensures ok
      ensures Releases(sb, old(View(ip)), View(ip), ip.inum) && Owned(sb, View(ip))
      ensures ip.size == 0 && dinodes == old(dinodes)[ip.inum := ip.Value()]
      ensures old(Sound(sb, View(ip))) ==>
        OtherFilesKept(sb, old(View(ip)), View(ip), ip.inum) && Contents(sb, View(ip), ip.inum) == []
    {
      ghost var v := View(ip);
      ghost var inum := ip.inum;
      assert |v.inodes[inum].addrs| == NDIRECT + 1;
      ok := true;
      var i := 0;
      while i < NDIRECT
        invariant 0 <= i <= NDIRECT && ok && |ip.addrs| == NDIRECT + 1 && |bitmap| == sb.size && dinodes == old(dinodes)
        invariant forall j :: 0 <= j < i ==> ip.addrs[j] == 0
        invariant forall j :: i <= j <= NDIRECT ==> ip.addrs[j] == v.inodes[inum].addrs[j]
        invariant forall x :: 0 <= x < sb.size ==>
          (bitmap[x] <==> v.bitmap[x] && !OwnedIn(sb, v, inum, 0, 0, x) && !OwnedIn(sb, v, inum, 0, i, x))
      {
        ok := FreeSlot(v, inum, 0, i, 0, ip.addrs[i]);
        ip.addrs := ip.addrs[i := 0];
        i := i + 1;
      }
      var indirect := ip.addrs[NDIRECT];
      if indirect != 0 {
        FreeEntries(v, inum, indirect);
        assert Slot(sb, v, inum, NDIRECT) == indirect;
        assert forall k' :: 0 <= k' < SLOTS && Owner(sb, v, inum, k', indirect) ==> Both(inum, NDIRECT, inum, k');
        ok := Bfree(indirect);
        ip.addrs := ip.addrs[NDIRECT := 0];
      }
      ip.size := 0;
      Iupdate(ip);
      assert ip.addrs == seq(NDIRECT + 1, _ => 0);
      ReleasedAll(sb, v, View(ip), inum);
      ReleaseKeepsOwned(sb, v, View(ip), inum);
      if Sound(sb, v) {
        TruncateKeepsSound(sb, v, View(ip), inum);
      }
    }

    /** One round of readi's loop: m bytes out of the block at `at`. */
    method ReadPiece(ip: InodeRef, at: nat, m: nat, ghost c: seq<Byte>) returns (piece: seq<Byte>)
      requires Owned(sb, View(ip)) && ip.inum < sb.ninodes && HoleFree(sb, View(ip), ip.inum)
      requires c == Contents(sb, View(ip), ip.inum)
      requires at + m <= ip.size && 0 < m <= BSIZE - at % BSIZE
      modifies this`bitmap, this`blocks, this`logged, ip`addrs
      ensures View(ip) == old(View(ip)) && logged == old(logged)
      ensures at + m <= |c| && piece == c[at..at + m]
    {
      ContentsPiece(sb, View(ip), ip.inum, at, m);
      var addr := Bmap(ip, at / BSIZE);
      piece := blocks[addr][at % BSIZE..at % BSIZE + m];
    }

    /** readi's loop. */
    method ReadBytes(ip: InodeRef, off: nat, len: nat) returns (dst: seq<Byte>)
      requires Owned(sb, View(ip)) && ip.inum < sb.ninodes && HoleFree(sb, View(ip), ip.inum) && off + len <= ip.size
      modifies this`bitmap, this`blocks, this`logged, ip`addrs
      ensures View(ip) == old(View(ip)) && logged == old(logged)
      ensures dst == Contents(sb, View(ip), ip.inum)[off..off + len]
    {
      ghost var v, l := View(ip), logged;
      ghost var c := Contents(sb, v, ip.inum);
      assert |c| == ip.size;
      dst := [];
      var tot := 0;
      while tot < len
        invariant 0 <= tot <= len && off + len <= |c|
        invariant View(ip) == v && logged == l
        invariant dst == c[off..off + tot]
      {
        var at := off + tot;
        var m := RoundLength(at, len - tot);
        var piece := ReadPiece(ip, at, m, c);
        dst := JoinSlices(c, off, at, at + m, dst, piece);
        tot := tot + m;
      }
    }

    /** Copies out of the file. Reading never allocates, since a file has no holes: the volume and the
        log are unchanged, and the bytes returned are the file's. */
    method Readi(ip: InodeRef, off: nat, n: nat, readers: set<int>) returns (r: Io, dst: seq<Byte>)
      requires Owned(sb, View(ip)) && ip.inum < sb.ninodes && HoleFree(sb, View(ip), ip.inum)
      requires off < UINT && n < UINT
      modifies this`bitmap, this`blocks, this`logged, ip`addrs
      ensures View(ip) == old(View(ip)) && logged == old(logged)
      ensures ip.typ == T_DEV ==> r == DeviceIo(ip.major, readers) && dst == []
      ensures ip.typ != T_DEV ==>
        r == (if off > ip.size || off + n >= UINT then Err else Done(if off + n > ip.size then ip.size - off else n))
      ensures ip.typ != T_DEV ==> dst == if r.Done? then Contents(sb, View(ip), ip.inum)[off..off + r.n] else []
    {
      dst := [];
      if ip.typ == T_DEV {
        return DeviceIo(ip.major, readers), dst;
      }
      if off > ip.size || (off + n) % UINT < off {
        return Err, dst;
      }
      var len := if off + n > ip.size then ip.size - off else n;
      dst := ReadBytes(ip, off, len);
      return Done(len), dst;
    }

    /** The copy of one round of writei's loop: m bytes of src into the block at off, which bmap found at addr. */
    method StorePiece(src: seq<Byte>, off0: nat, off: nat, m: nat, addr: nat, ghost ip: InodeRef, ghost v0: Volume,
                      ghost l0: set<nat>, ghost v: Volume, ghost l: set<nat>, ghost n0: nat, ghost n: nat,
                      ghost bn: nat, ghost off': nat, ghost n': nat, ghost bn': nat)
      requires Writing(sb, v0, l0, v, l, ip.inum, off0, off, src, n0, n, bn) && bn == off / BSIZE
      requires Bgot(sb, v, l, View(ip), logged, ip.inum, bn, addr)
      requires 0 < m <= BSIZE - off % BSIZE && off + m <= off0 + |src|
      requires off' == off + m && bn' == bn + 1 && n' == Max(n, bn')
      modifies this`blocks, this`logged
      ensures Writing(sb, v0, l0, View(ip), logged, ip.inum, off0, off', src, n0, n', bn')
    {
      ghost var v1, l1 := View(ip), logged;
      BmappedBlock(sb, v, l, v1, l1, ip.inum, bn, addr);
      var data := Patched(blocks[addr], src, off0, off, m);
      blocks := blocks[addr := data];
      logged := logged + {addr};
      WritingRound(sb, v0, l0, v, l, v1, l1, View(ip), logged, ip.inum, off0, off, m, src, n0, n, bn, addr, data, off',
                   n', bn');
    }

    /** One round of writei's loop, as far as off'. */
    method WritePiece(ip: InodeRef, src: seq<Byte>, off0: nat, off: nat,
                      ghost v0: Volume, ghost l0: set<nat>, ghost n0: nat, ghost n: nat, ghost bn: nat)
      returns (ok: bool, off': nat, ghost n': nat, ghost bn': nat)
      requires Writing(sb, v0, l0, View(ip), logged, ip.inum, off0, off, src, n0, n, bn)
      requires LoopAt(off0, off, off0 + |src|, n0, n, bn) && off < off0 + |src|
      modifies this`bitmap, this`blocks, this`logged, ip`addrs
      ensures off < off' && LoopAt(off0, off', off0 + |src|, n0, n', bn')
      ensures ok <==> Writing(sb, v0, l0, View(ip), logged, ip.inum, off0, off', src, n0, n', bn')
      ensures !ok ==> Full(bitmap) && Lacking(v0.bitmap, n0, Max(n0, BlocksFor(off0 + |src|)))
    {
      ghost var v, l := View(ip), logged;
      var m := RoundLength(off, off0 + |src| - off);
      off', bn' := off + m, bn + 1;
      n' := Max(n, bn');
      LoopNext(off0, off, off0 + |src|, n0, n, bn, m, off', n', bn');
      var addr := Bmap(ip, off / BSIZE);
      if addr == 0 {
        PieceFails(sb, v0, l0, v, l, ip.inum, off0, off, src, n0, n, bn, n', Max(n0, BlocksFor(off0 + |src|)));
        return false, off', n', bn';
      }
      StorePiece(src, off0, off, m, addr, ip, v0, l0, v, l, n0, n, bn, off', n', bn');
      ok := true;
    }

    /** writei's loop, from a hole-free file of n0 blocks. */
    method WriteBytes(ip: InodeRef, src: seq<Byte>, off0: nat, ghost n0: nat)
      returns (ok: bool, off: nat, ghost n: nat, ghost hi: nat)
      requires Owned(sb, View(ip)) && ip.inum < sb.ninodes && HoleFree(sb, View(ip), ip.inum)
      requires n0 == BlocksFor(ip.size)
      requires off0 <= ip.size && off0 + |src| <= MAXFILE * BSIZE && 0 < |src|
      modifies this`bitmap, this`blocks, this`logged, ip`addrs
      ensures ok <==> Writing(sb, old(View(ip)), old(logged), View(ip), logged, ip.inum, off0, off, src, n0, n, hi)
      ensures ok ==> off == off0 + |src| && hi == BlocksFor(off) && n == Max(n0, hi)
      ensures !ok ==> Full(bitmap) && Lacking(old(View(ip)).bitmap, n0, Max(n0, BlocksFor(off0 + |src|)))
    {
      ghost var v0, l0 := View(ip), logged;
      WritingStarts(sb, v0, l0, ip.inum, off0, src, n0);
      ok, hi, n, off := true, off0 / BSIZE, n0, off0;
      LoopStarts(off0, off0 + |src|, n0, n, hi);
      while ok && off < off0 + |src|
        invariant LoopAt(off0, off, off0 + |src|, n0, n, hi)
        invariant ok <==> Writing(sb, v0, l0, View(ip), logged, ip.inum, off0, off, src, n0, n, hi)
        invariant !ok ==> Full(bitmap) && Lacking(v0.bitmap, n0, Max(n0, BlocksFor(off0 + |src|)))
        decreases off0 + |src| - off
      {
        ok, off, n, hi := WritePiece(ip, src, off0, off, v0, l0, n0, n, hi);
      }
      if ok {
        LoopEnds(off0, off, off0 + |src|, n0, n, hi);
      }
    }

    /** writei past its checks: the loop, then the inode if the size grew. */
    method WriteAndSync(ip: InodeRef, src: seq<Byte>, off: nat) returns (ok: bool)
      requires Sound(sb, View(ip)) && ip.inum < sb.ninodes && dinodes[ip.inum] == ip.Value()
      requires off <= ip.size && off + |src| <= MAXFILE * BSIZE && src != []
      modifies this`bitmap, this`blocks, this`logged, this`dinodes, ip`addrs, ip`size
      ensures ok ==> Wrote(sb, old(View(ip)), old(logged), old(dinodes), View(ip), logged, dinodes, ip.inum, off, src)
      ensures !ok ==> Full(bitmap) && FreeCount(old(bitmap)) < WriteNeeds(old(ip.size), off + |src|)
    {
      ghost var v0, l0, d0 := View(ip), logged, dinodes;
      assert HoleFree(sb, v0, ip.inum);
      var end; ghost var n, hi;
      ok, end, n, hi := WriteBytes(ip, src, off, BlocksFor(ip.size));
      if !ok {
        return;
      }
      ghost var v, l := View(ip), logged;
      SyncSize(ip, end);
      WriteFinishes(sb, v0, l0, d0, v, l, View(ip), logged, dinodes, ip.inum, off, src, end, n, hi);
    }

    /** writei's last part: a larger size goes to memory and disk. */
    method SyncSize(ip: InodeRef, end: nat)
      requires ip.inum < |dinodes|
      modifies this`logged, this`dinodes, ip`size
      ensures View(ip) ==
        old(View(ip)).(inodes := old(View(ip)).inodes[ip.inum := old(ip.Value()).(size := Max(old(ip.size), end))])
      ensures if end > old(ip.size)
              then dinodes == old(dinodes)[ip.inum := ip.Value()] && logged == old(logged) + {IBlock(sb, ip.inum)}
              else dinodes == old(dinodes) && logged == old(logged)
    {
      if end > ip.size {
        ip.size := end;
        Iupdate(ip);
      }
    }

    /** Copies into the file, growing it; the disk inode is kept equal to the in-memory one though it is
        written only when the size grows. -1 changes nothing. */
    method Writei(ip: InodeRef, src: seq<Byte>, off: nat, writers: set<int>) returns (r: Io)
      requires Sound(sb, View(ip)) && ip.inum < sb.ninodes && dinodes[ip.inum] == ip.Value()
      requires off < UINT && |src| < UINT
      modifies this`bitmap, this`blocks, this`logged, this`dinodes, ip`addrs, ip`size
      ensures ip.typ == T_DEV ==> r == DeviceIo(ip.major, writers)
      ensures ip.typ != T_DEV ==>
        (r == Err <==> off > old(ip.size) || off + |src| >= UINT || off + |src| > MAXFILE * BSIZE)
      ensures ip.typ == T_DEV || r == Err ==>
        View(ip) == old(View(ip)) && logged == old(logged) && dinodes == old(dinodes)
      ensures ip.typ != T_DEV ==> r == Err || (r == Panic && Full(bitmap)) || r == Done(|src|)
      ensures ip.typ != T_DEV && r != Err ==>
        (r == Panic <==> FreeCount(old(bitmap)) < WriteNeeds(old(ip.size), off + |src|))
      ensures ip.typ != T_DEV && r.Done? ==>
        Wrote(sb, old(View(ip)), old(logged), old(dinodes), View(ip), logged, dinodes, ip.inum, off, src)
    {
      if ip.typ == T_DEV {
        return DeviceIo(ip.major, writers);
      }
      if off > ip.size || (off + |src|) % UINT < off {
        return Err;
      }
      if off + |src| > MAXFILE * BSIZE {
        return Err;
      }
      if src == [] {
        WroteNothing(sb, View(ip), logged, dinodes, ip.inum, off);
        return Done(0);
      }
      var ok := WriteAndSync(ip, src, off);
      return if ok then Done(|src|) else Panic;
    }
  }
}
