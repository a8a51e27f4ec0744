/** bio.c: the buffer cache over a disk. One method per stretch of code that holds bcache.lock or a buffer's
    sleep-lock, so every interleaving of callers is a sequence of method calls. Only blocks of ROOTDEV are read
    and written; binit leaves every buffer on device 0. */
module Bio {
  import LogDisk
  import opened Params

  const NBUF := 30
  const HEAD := 30      // bcache.head, in the arrays prev and next
  const ROOTDEV := 1

  type Block = LogDisk.Block

  // The list through prev and next.

  /** What follows position i of the list. */
  function After(order: seq<int>, i: int): (b: int)
    requires 0 <= i < |order|
  {
    if i + 1 < |order| then order[i + 1] else HEAD
  }

  function Before(order: seq<int>, i: int): (b: int)
    requires 0 <= i < |order|
  {
    if i > 0 then order[i - 1] else HEAD
  }

  /** prev and next are a circle through the head and then `order`. */
  ghost predicate Ring(prev: seq<int>, next: seq<int>, order: seq<int>)
  {
    && |prev| == |next| == NBUF + 1 && Distinct(order) && (forall i :: 0 <= i < |order| ==> 0 <= order[i] < NBUF)
    && next[HEAD] == (if order == [] then HEAD else order[0])
    && prev[HEAD] == (if order == [] then HEAD else order[|order| - 1])
    && (forall i {:trigger After(order, i)} :: 0 <= i < |order| ==> next[order[i]] == After(order, i))
    && (forall i {:trigger Before(order, i)} :: 0 <= i < |order| ==> prev[order[i]] == Before(order, i))
  }

  /** Linking b in after the head. */
  lemma PushFront(prev: seq<int>, next: seq<int>, order: seq<int>, b: int, prev': seq<int>, next': seq<int>)
    requires Ring(prev, next, order) && 0 <= b < NBUF && b !in order
    requires next' == next[b := next[HEAD]][HEAD := b] && prev' == prev[b := HEAD][next[HEAD] := b]
    ensures Ring(prev', next', [b] + order)
  {
    var order' := [b] + order;
    forall i | 0 <= i < |order'|
      ensures next'[order'[i]] == After(order', i) && prev'[order'[i]] == Before(order', i)
    {
      if i > 0 {
        assert order'[i] == order[i - 1] && next[order[i - 1]] == After(order, i - 1)
          && prev[order[i - 1]] == Before(order, i - 1);
      }
    }
  }

  /** Taking the element at k out. */
  lemma TakeOut(prev: seq<int>, next: seq<int>, order: seq<int>, k: int,
                prev': seq<int>, next': seq<int>, order': seq<int>)
    requires Ring(prev, next, order) && 0 <= k < |order| && order' == order[..k] + order[k + 1..]
    requires prev' == prev[After(order, k) := Before(order, k)] && next' == next[Before(order, k) := After(order, k)]
    ensures Ring(prev', next', order') && order[k] !in order'
  {
    StillDistinct(order, k, order');
    TakeOutHead(prev, next, order, k, prev', next', order');
    forall i | 0 <= i < |order'|
      ensures next'[order'[i]] == After(order', i) && prev'[order'[i]] == Before(order', i)
    {
      TakeOutNext(next, order, k, next', order', i);
      TakeOutPrev(prev, order, k, prev', order', i);
    }
  }

  lemma StillDistinct(order: seq<int>, k: int, order': seq<int>)
    requires Distinct(order) && 0 <= k < |order| && order' == order[..k] + order[k + 1..]
    ensures Distinct(order') && order[k] !in order'
    ensures forall i :: 0 <= i < |order'| ==> order'[i] == order[if i < k then i else i + 1]
  {
  }

  /** The head's two links. */
  lemma TakeOutHead(prev: seq<int>, next: seq<int>, order: seq<int>, k: int,
                    prev': seq<int>, next': seq<int>, order': seq<int>)
    requires Ring(prev, next, order) && 0 <= k < |order| && order' == order[..k] + order[k + 1..]
    requires prev' == prev[After(order, k) := Before(order, k)] && next' == next[Before(order, k) := After(order, k)]
    ensures next'[HEAD] == if order' == [] then HEAD else order'[0]
    ensures prev'[HEAD] == if order' == [] then HEAD else order'[|order'| - 1]
  {
  }

  lemma TakeOutNext(next: seq<int>, order: seq<int>, k: int, next': seq<int>, order': seq<int>, i: int)
    requires |next| == NBUF + 1 && Distinct(order) && (forall j :: 0 <= j < |order| ==> 0 <= order[j] < NBUF)
    requires forall j {:trigger After(order, j)} :: 0 <= j < |order| ==> next[order[j]] == After(order, j)
    requires 0 <= k < |order| && order' == order[..k] + order[k + 1..]
    requires next' == next[Before(order, k) := After(order, k)] && 0 <= i < |order'|
    ensures next'[order'[i]] == After(order', i)
  {
    var j := if i < k then i else i + 1;
    assert order'[i] == order[j] && next[order[j]] == After(order, j);
    assert After(order', i) == if j == k - 1 then After(order, k) else After(order, j);
  }

  lemma TakeOutPrev(prev: seq<int>, order: seq<int>, k: int, prev': seq<int>, order': seq<int>, i: int)
    requires |prev| == NBUF + 1 && Distinct(order) && (forall j :: 0 <= j < |order| ==> 0 <= order[j] < NBUF)
    requires forall j {:trigger Before(order, j)} :: 0 <= j < |order| ==> prev[order[j]] == Before(order, j)
    requires 0 <= k < |order| && order' == order[..k] + order[k + 1..]
    requires prev' == prev[After(order, k) := Before(order, k)] && 0 <= i < |order'|
    ensures prev'[order'[i]] == Before(order', i)
  {
    var j := if i < k then i else i + 1;
    assert order'[i] == order[j] && prev[order[j]] == Before(order, j);
    assert Before(order', i) == if j == k + 1 then Before(order, k) else Before(order, j);
  }

  // The buffers.

  /** struct buf: `valid` and `dirty` are B_VALID and B_DIRTY, `locked` its sleep-lock. */
  datatype Buf = Buf(dev: int, blockno: int, valid: bool, dirty: bool, refcnt: int, locked: bool, data: Block)

  predicate Caches(b: Buf, blockno: int)
  {
    b.dev == ROOTDEV && b.blockno == blockno
  }

  predicate MayRecycle(b: Buf)
  {
    b.refcnt == 0 && !b.dirty
  }

  /** A buffer that has been filled holds its block's last contents. */
  predicate BufRight(b: Buf, store: seq<Block>)
  {
    && b.refcnt >= 0 && (b.locked ==> b.refcnt > 0)
    && (b.dirty ==> b.valid) && (b.valid ==> b.dev == ROOTDEV && 0 <= b.blockno < |store| && b.data == store[b.blockno])
  }

  /** Only a dirty buffer is newer than the disk. */
  ghost predicate OnDisk(bufs: seq<Buf>, disk: seq<Block>, store: seq<Block>, k: int)
    requires 0 <= k < |disk| == |store|
  {
    disk[k] == store[k] || exists b :: 0 <= b < |bufs| && bufs[b].dirty && Caches(bufs[b], k)
  }

  /** The cache and the disk together are the array `store` of blocks as last logged or written. */
  ghost predicate Coherent(bufs: seq<Buf>, disk: seq<Block>, store: seq<Block>)
  {
    && |bufs| == NBUF && |disk| == |store|
    && (forall b :: 0 <= b < NBUF ==> BufRight(bufs[b], store))
    && (forall b, c :: 0 <= b < c < NBUF && bufs[b].dev == ROOTDEV && bufs[c].dev == ROOTDEV ==>
        bufs[b].blockno != bufs[c].blockno)
    && (forall k {:trigger OnDisk(bufs, disk, store, k)} :: 0 <= k < |disk| ==> OnDisk(bufs, disk, store, k))
  }

  /** `cache` is what the dirty buffers hold, by block number: the cache that module Log works with. */
  ghost predicate Pinned(bufs: seq<Buf>, cache: map<nat, Block>)
  {
    && (forall b :: 0 <= b < |bufs| && bufs[b].dirty && bufs[b].dev == ROOTDEV ==>
          bufs[b].blockno in cache && cache[bufs[b].blockno] == bufs[b].data)
    && (forall k :: k in cache ==> exists b :: 0 <= b < |bufs| && bufs[b].dirty && Caches(bufs[b], k))
  }

  /** The array of blocks is the disk seen through the dirty buffers, as Log.Log.Bread reads it. */
  lemma SeenThroughPinned(bufs: seq<Buf>, disk: seq<Block>, store: seq<Block>, cache: map<nat, Block>, k: nat)
    requires Coherent(bufs, disk, store) && Pinned(bufs, cache) && k < |disk|
    ensures store[k] == if k in cache then cache[k] else disk[k]
  {
    assert OnDisk(bufs, disk, store, k);
    if k in cache {
      var b :| 0 <= b < |bufs| && bufs[b].dirty && Caches(bufs[b], k);
      assert BufRight(bufs[b], store);
    }
  }

  /** The list is in order of each buffer's last release, latest first. */
  ghost predicate Recent(order: seq<int>, stamp: seq<int>, clock: int)
  {
    && |order| == NBUF && |stamp| == NBUF && Distinct(order) && (forall i :: 0 <= i < NBUF ==> 0 <= order[i] < NBUF)
    && (forall b :: 0 <= b < NBUF ==> b in order)
    && (forall i, j :: 0 <= i < j < NBUF ==> stamp[order[i]] > stamp[order[j]])
    && (forall b :: 0 <= b < NBUF ==> stamp[b] < clock)
  }

  /** The buffer at k, just released, goes to the front. */
  lemma Freshened(order: seq<int>, stamp: seq<int>, clock: int, k: int, order': seq<int>, stamp': seq<int>)
    requires Recent(order, stamp, clock) && 0 <= k < NBUF && order' == [order[k]] + (order[..k] + order[k + 1..])
    requires stamp' == stamp[order[k] := clock]
    ensures Recent(order', stamp', clock + 1)
  {
    assert forall i :: 0 < i < NBUF ==> order'[i] == order[if i <= k then i - 1 else i];
    forall b | 0 <= b < NBUF
      ensures b in order'
    {
      assert b in order;
      var i :| 0 <= i < |order| && order[i] == b;
      assert order'[if i == k then 0 else if i < k then i + 1 else i] == b;
    }
  }

  /** A buffer's own fields change, but not what it caches: its count, its lock, or its contents being read. */
  lemma SameBlock(bufs: seq<Buf>, disk: seq<Block>, store: seq<Block>, b: int, x: Buf, bufs': seq<Buf>)
    requires Coherent(bufs, disk, store) && 0 <= b < NBUF && bufs' == bufs[b := x] && BufRight(x, store)
    requires x.dev == bufs[b].dev && x.blockno == bufs[b].blockno && x.dirty == bufs[b].dirty
    ensures Coherent(bufs', disk, store)
  {
    forall k | 0 <= k < |disk|
      ensures OnDisk(bufs', disk, store, k)
    {
      assert OnDisk(bufs, disk, store, k);
      if disk[k] != store[k] {
        var c :| 0 <= c < NBUF && bufs[c].dirty && Caches(bufs[c], k);
        assert bufs'[c].dirty && Caches(bufs'[c], k);
      }
    }
  }

  /** A clean, unreferenced buffer takes on a block nobody caches. */
  lemma Recycled(bufs: seq<Buf>, disk: seq<Block>, store: seq<Block>, b: int, blockno: int, x: Buf, bufs': seq<Buf>)
    requires Coherent(bufs, disk, store) && 0 <= b < NBUF && MayRecycle(bufs[b])
    requires forall c :: 0 <= c < NBUF ==> !Caches(bufs[c], blockno)
    requires x == bufs[b].(dev := ROOTDEV, blockno := blockno, valid := false, dirty := false, refcnt := 1)
    requires bufs' == bufs[b := x]
    ensures Coherent(bufs', disk, store)
  {
    forall k | 0 <= k < |disk|
      ensures OnDisk(bufs', disk, store, k)
    {
      assert OnDisk(bufs, disk, store, k);
      if disk[k] != store[k] {
        var c :| 0 <= c < NBUF && bufs[c].dirty && Caches(bufs[c], k);
        assert bufs'[c].dirty && Caches(bufs'[c], k);
      }
    }
  }

  /** New contents for the block of b: in the buffer, pinned dirty, or on disk as well. */
  lemma Written(bufs: seq<Buf>, disk: seq<Block>, store: seq<Block>, b: int, data: Block, x: Buf, bufs': seq<Buf>,
                disk': seq<Block>, store': seq<Block>)
    requires Coherent(bufs, disk, store) && 0 <= b < NBUF && bufs[b].dev == ROOTDEV && 0 <= bufs[b].blockno < |disk|
    requires bufs' == bufs[b := x] && store' == store[bufs[b].blockno := data]
    requires x == bufs[b].(valid := true, data := data, dirty := x.dirty)
    requires if x.dirty then disk' == disk else disk' == disk[bufs[b].blockno := data]
    ensures Coherent(bufs', disk', store')
  {
    forall k | 0 <= k < |disk|
      ensures OnDisk(bufs', disk', store', k)
    {
      assert OnDisk(bufs, disk, store, k);
      if k == bufs[b].blockno {
        assert Caches(bufs'[b], k);
      } else if disk[k] != store[k] {
        var c :| 0 <= c < NBUF && bufs[c].dirty && Caches(bufs[c], k);
        assert bufs'[c].dirty && Caches(bufs'[c], k);
      }
    }
  }

  lemma InitialOrder(order: seq<int>, stamp: seq<int>)
    requires |order| == |stamp| == NBUF && (forall i :: 0 <= i < NBUF ==> order[i] == NBUF - 1 - i)
    requires forall i :: 0 <= i < NBUF ==> stamp[i] == i
    ensures Recent(order, stamp, NBUF)
  {
    forall b | 0 <= b < NBUF
      ensures b in order
    {
      assert order[NBUF - 1 - b] == b;
    }
  }

  class Cache {
    const buf: array<Buf>
    const prev: array<int>
    const next: array<int>
    const disk: array<Block>
    ghost var store: seq<Block>
    ghost var order: seq<int>
    ghost var stamp: seq<int>
    ghost var clock: int

    ghost predicate Valid()
      reads this, buf, prev, next, disk
    {
      && buf.Length == NBUF && prev.Length == next.Length == NBUF + 1 && prev != next
      && Ring(prev[..], next[..], order) && Recent(order, stamp, clock) && Coherent(buf[..], disk[..], store)
    }

    /** binit, over a disk: an empty cache. */
    constructor (disk: array<Block>)
      ensures Valid() && fresh(buf) && fresh(prev) && fresh(next) && this.disk == disk && store == disk[..]
      ensures forall b :: 0 <= b < NBUF ==> buf[b].refcnt == 0 && !buf[b].valid
    {
      buf := new Buf[NBUF](_ => Buf(0, 0, false, false, 0, false, []));
      prev := new int[NBUF + 1](_ => HEAD);
      next := new int[NBUF + 1](_ => HEAD);
      this.disk := disk;
      store, order, stamp, clock := disk[..], [], seq(NBUF, i => i), NBUF;
      new;
      LinkAll();
      InitialOrder(order, stamp);
      forall k | 0 <= k < |store|
        ensures OnDisk(buf[..], disk[..], store, k)
      {
      }
    }

    /** binit's loop. */
    method LinkAll()
      requires prev.Length == next.Length == NBUF + 1 && prev != next && order == [] && prev[HEAD] == next[HEAD] == HEAD
      modifies prev, next, this`order
      ensures Ring(prev[..], next[..], order) && |order| == NBUF
      ensures forall i :: 0 <= i < NBUF ==> order[i] == NBUF - 1 - i
    {
      var b := 0;
      while b < NBUF
        invariant 0 <= b <= NBUF && Ring(prev[..], next[..], order) && |order| == b
        invariant forall i :: 0 <= i < b ==> order[i] == b - 1 - i
      {
        InsertHead(b);
        b := b + 1;
      }
    }

    /** The four assignments that link b in after the head. */
    method InsertHead(b: int)
      requires prev.Length == next.Length == NBUF + 1 && prev != next && 0 <= b < NBUF
      requires Ring(prev[..], next[..], order) && b !in order
      modifies prev, next, this`order
      ensures Ring(prev[..], next[..], order) && order == [b] + old(order)
    {
      PushFront(prev[..], next[..], order, b,
                prev[..][b := HEAD][next[HEAD] := b], next[..][b := next[HEAD]][HEAD := b]);
      next[b] := next[HEAD];
      prev[b] := HEAD;
      prev[next[HEAD]] := b;
      next[HEAD] := b;
      order := [b] + order;
    }

    /** The two assignments that take b, the k-th of the list, out of it. */
    method Unlink(b: int, ghost k: int)
      requires prev.Length == next.Length == NBUF + 1 && prev != next
      requires Ring(prev[..], next[..], order) && 0 <= k < |order| && order[k] == b
      modifies prev, next, this`order
      ensures Ring(prev[..], next[..], order) && order == old(order)[..k] + old(order)[k + 1..] && b !in order
    {
      assert next[..][order[k]] == After(order, k) && prev[..][order[k]] == Before(order, k);
      TakeOut(prev[..], next[..], order, k, prev[..][next[b] := prev[b]], next[..][prev[b] := next[b]],
              order[..k] + order[k + 1..]);
      prev[next[b]] := prev[b];
      next[prev[b]] := next[b];
      order := order[..k] + order[k + 1..];
    }

    /** bget's first loop: the buffer that caches the block, HEAD if none does. */
    method FindCached(blockno: int) returns (b: int)
      requires Valid()
      ensures b == HEAD ==> forall c :: 0 <= c < NBUF ==> !Caches(buf[c], blockno)
      ensures b != HEAD ==> 0 <= b < NBUF && Caches(buf[b], blockno)
    {
      b := next[HEAD];
      ghost var i := 0;
      while b != HEAD && !(buf[b].dev == ROOTDEV && buf[b].blockno == blockno)
        invariant 0 <= i <= NBUF && b == (if i < NBUF then order[i] else HEAD)
        invariant forall j :: 0 <= j < i ==> !Caches(buf[order[j]], blockno)
        decreases NBUF - i
      {
        assert next[..][order[i]] == After(order, i);
        b := next[b];
        i := i + 1;
      }
      forall c | 0 <= c < NBUF && b == HEAD
        ensures !Caches(buf[c], blockno)
      {
        assert c in order;
        var j :| 0 <= j < |order| && order[j] == c;
      }
    }

    /** bget's second loop: of the clean, unreferenced buffers the one released longest ago, HEAD if there is none. */
    method FindVictim() returns (b: int)
      requires Valid()
      ensures b == HEAD ==> forall c :: 0 <= c < NBUF ==> !MayRecycle(buf[c])
      ensures b != HEAD ==>
        0 <= b < NBUF && MayRecycle(buf[b]) && forall c :: 0 <= c < NBUF && MayRecycle(buf[c]) ==> stamp[b] <= stamp[c]
    {
      b := prev[HEAD];
      ghost var i := NBUF - 1;
      while b != HEAD && !(buf[b].refcnt == 0 && !buf[b].dirty)
        invariant -1 <= i < NBUF && b == (if i >= 0 then order[i] else HEAD)
        invariant forall j :: i < j < NBUF ==> !MayRecycle(buf[order[j]])
        decreases i
      {
        assert prev[..][order[i]] == Before(order, i);
        b := prev[b];
        i := i - 1;
      }
      forall c | 0 <= c < NBUF && MayRecycle(buf[c])
        ensures b != HEAD && stamp[b] <= stamp[c]
      {
        assert c in order;
        var j :| 0 <= j < |order| && order[j] == c;
      }
    }

    /** bget under bcache.lock: a reference to the buffer that caches the block, or to a recycled one; HEAD stands for
        the panic when every buffer is in use. */
    method Bget(blockno: int) returns (b: int)
      requires Valid()
      modifies buf
      ensures Valid()
      ensures b == HEAD ==>
        buf[..] == old(buf[..]) && forall c :: 0 <= c < NBUF ==> !Caches(buf[c], blockno) && !MayRecycle(buf[c])
      ensures b != HEAD ==> 0 <= b < NBUF && Caches(buf[b], blockno) && buf[b].refcnt > 0
      ensures b != HEAD && Caches(old(buf[..])[b], blockno) ==>
        buf[..] == old(buf[..])[b := old(buf[..])[b].(refcnt := old(buf[..])[b].refcnt + 1)]
      ensures b != HEAD && !Caches(old(buf[..])[b], blockno) ==>
        && (forall c :: 0 <= c < NBUF ==> !Caches(old(buf[..])[c], blockno))
        && MayRecycle(old(buf[..])[b])
        && (forall c :: 0 <= c < NBUF && MayRecycle(old(buf[..])[c]) ==> stamp[b] <= stamp[c])
        && buf[..] == old(buf[..])[b := old(buf[..])[b].(dev := ROOTDEV, blockno := blockno, valid := false,
                                                         dirty := false, refcnt := 1)]
    {
      ghost var bufs := buf[..];
      b := FindCached(blockno);
      if b != HEAD {
        SameBlock(bufs, disk[..], store, b, bufs[b].(refcnt := bufs[b].refcnt + 1),
                  bufs[b := bufs[b].(refcnt := bufs[b].refcnt + 1)]);
        buf[b] := buf[b].(refcnt := buf[b].refcnt + 1);
        assert buf[..] == bufs[b := bufs[b].(refcnt := bufs[b].refcnt + 1)];
        return;
      }
      b := FindVictim();
      if b != HEAD {
        ghost var x := bufs[b].(dev := ROOTDEV, blockno := blockno, valid := false, dirty := false, refcnt := 1);
        Recycled(bufs, disk[..], store, b, blockno, x, bufs[b := x]);
        buf[b] := buf[b].(dev := ROOTDEV, blockno := blockno, valid := false, dirty := false, refcnt := 1);
        assert buf[..] == bufs[b := x];
      }
    }

    /** acquiresleep on a buffer the caller refers to. */
    method Lock(b: int)
      requires Valid() && 0 <= b < NBUF && buf[b].refcnt > 0 && !buf[b].locked
      modifies buf
      ensures Valid() && buf[..] == old(buf[..])[b := old(buf[b]).(locked := true)]
    {
      SameBlock(buf[..], disk[..], store, b, buf[b].(locked := true), buf[..][b := buf[b].(locked := true)]);
      buf[b] := buf[b].(locked := true);
      assert buf[..] == old(buf[..])[b := old(buf[b]).(locked := true)];
    }

    /** bread's last part: the caller gets the block as last logged or written. */
    method Bread(b: int) returns (data: Block)
      requires Valid() && 0 <= b < NBUF && buf[b].locked && buf[b].dev == ROOTDEV && 0 <= buf[b].blockno < disk.Length
      modifies buf
      ensures Valid() && data == store[old(buf[b]).blockno]
      ensures buf[..] == old(buf[..])[b := old(buf[b]).(valid := true, data := data)]
    {
      if !buf[b].valid {
        NoOtherDirty(buf[..], disk[..], store, b);
        SameBlock(buf[..], disk[..], store, b, buf[b].(valid := true, data := disk[buf[b].blockno]),
                  buf[..][b := buf[b].(valid := true, data := disk[buf[b].blockno])]);
        buf[b] := buf[b].(valid := true, data := disk[buf[b].blockno]);
      }
      data := buf[b].data;
      assert buf[..] == old(buf[..])[b := old(buf[b]).(valid := true, data := data)];
    }

    /** A caller's new data for a locked buffer, and log_write's flag that keeps it from being recycled. */
    method LogWrite(b: int, data: Block)
      requires Valid() && 0 <= b < NBUF && buf[b].locked && buf[b].valid
      modifies buf, this`store
      ensures Valid() && store == old(store)[old(buf[b]).blockno := data]
      ensures buf[..] == old(buf[..])[b := old(buf[b]).(dirty := true, data := data)] && disk[..] == old(disk[..])
    {
      ghost var x := buf[b].(dirty := true, data := data);
      Written(buf[..], disk[..], store, b, data, x, buf[..][b := x], disk[..], store[buf[b].blockno := data]);
      store := store[buf[b].blockno := data];
      buf[b] := buf[b].(dirty := true, data := data);
      assert buf[..] == old(buf[..])[b := x];
    }

    /** A caller's new data for a locked buffer, written through by bwrite. */
    method Bwrite(b: int, data: Block)
      requires Valid() && 0 <= b < NBUF && buf[b].locked && buf[b].dev == ROOTDEV && 0 <= buf[b].blockno < disk.Length
      modifies buf, disk, this`store
      ensures Valid() && store == old(store)[old(buf[b]).blockno := data]
      ensures disk[..] == old(disk[..])[old(buf[b]).blockno := data]
      ensures buf[..] == old(buf[..])[b := old(buf[b]).(valid := true, dirty := false, data := data)]
    {
      var k := buf[b].blockno;
      ghost var x := buf[b].(valid := true, dirty := false, data := data);
      Written(buf[..], disk[..], store, b, data, x, buf[..][b := x], disk[..][k := data], store[k := data]);
      disk[k] := data;
      buf[b] := buf[b].(valid := true, dirty := false, data := data);
      store := store[k := data];
      assert buf[..] == old(buf[..])[b := x] && disk[..] == old(disk[..])[k := data];
    }

    /** brelse's releasesleep. */
    method Unlock(b: int)
      requires Valid() && 0 <= b < NBUF && buf[b].locked
      modifies buf
      ensures Valid() && buf[..] == old(buf[..])[b := old(buf[b]).(locked := false)]
    {
      SameBlock(buf[..], disk[..], store, b, buf[b].(locked := false), buf[..][b := buf[b].(locked := false)]);
      buf[b] := buf[b].(locked := false);
      assert buf[..] == old(buf[..])[b := old(buf[b]).(locked := false)];
    }

    /** brelse under bcache.lock: at its last release a buffer becomes the most recent. */
    method Brelse(b: int)
      requires Valid() && 0 <= b < NBUF && buf[b].refcnt > 0 && (buf[b].locked ==> buf[b].refcnt > 1)
      modifies buf, prev, next, this`order, this`stamp, this`clock
      ensures Valid() && buf[..] == old(buf[..])[b := old(buf[b]).(refcnt := old(buf[b]).refcnt - 1)]
      ensures if buf[b].refcnt == 0 then stamp == old(stamp)[b := old(clock)] && clock == old(clock) + 1
        else stamp == old(stamp) && clock == old(clock)
    {
      SameBlock(buf[..], disk[..], store, b, buf[b].(refcnt := buf[b].refcnt - 1),
                buf[..][b := buf[b].(refcnt := buf[b].refcnt - 1)]);
      buf[b] := buf[b].(refcnt := buf[b].refcnt - 1);
      assert buf[..] == old(buf[..])[b := old(buf[b]).(refcnt := old(buf[b]).refcnt - 1)];
      if buf[b].refcnt == 0 {
        MoveToFront(b);
      }
    }

    /** brelse's surgery on the list. */
    method MoveToFront(b: int)
      requires prev.Length == next.Length == NBUF + 1 && prev != next && Ring(prev[..], next[..], order)
      requires Recent(order, stamp, clock) && 0 <= b < NBUF
      modifies prev, next, this`order, this`stamp, this`clock
      ensures Ring(prev[..], next[..], order) && Recent(order, stamp, clock) && stamp == old(stamp)[b := old(clock)]
      ensures clock == old(clock) + 1
    {
      assert b in order;
      ghost var k :| 0 <= k < |order| && order[k] == b;
      Unlink(b, k);
      InsertHead(b);
      Freshened(old(order), stamp, clock, k, order, stamp[b := clock]);
      stamp, clock := stamp[b := clock], clock + 1;
    }
  }

  /** What is not in a filled buffer is on disk. */
  lemma NoOtherDirty(bufs: seq<Buf>, disk: seq<Block>, store: seq<Block>, b: int)
    requires Coherent(bufs, disk, store) && 0 <= b < NBUF && bufs[b].dev == ROOTDEV && !bufs[b].valid
    requires 0 <= bufs[b].blockno < |disk|
    ensures disk[bufs[b].blockno] == store[bufs[b].blockno]
  {
    assert OnDisk(bufs, disk, store, bufs[b].blockno);
  }
}
