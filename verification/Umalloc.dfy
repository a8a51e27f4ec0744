/** umalloc.c: the circular, address-ordered, coalescing free list of section 8.7 of The C Programming
    Language, 2nd edition.

    Memory is counted in units of one Header (8 bytes), and an address is a unit number. ptr and size are
    the header words in memory. The ghost fields say what the words mean: `ring` is the free list in
    address order from base, `live` the blocks handed out, `arena` every unit sbrk has supplied. */
module Umalloc {
  import opened Params

  const HEADER := 8          // sizeof(Header)
  const SBRK_UNITS := 0x1000_0000  // 2^31 bytes, the most a positive int can ask sbrk for

  // Arithmetic of a request.

  /** (nbytes + sizeof(Header) - 1)/sizeof(Header) + 1, in 32-bit unsigned arithmetic. */
  function Units(nbytes: nat): (n: nat)
    requires nbytes < UINT
    ensures 1 <= n <= 0x2000_0000
  {
    (nbytes + HEADER - 1) % UINT / HEADER + 1
  }

  /** The block holds the request exactly when the rounding does not overflow. */
  lemma UnitsHoldRequest(nbytes: nat)
    requires nbytes < UINT
    ensures (Units(nbytes) - 1) * HEADER >= nbytes <==> nbytes <= UINT - HEADER
    ensures nbytes > UINT - HEADER ==> Units(nbytes) == 1
  {
  }

  /** What sbrk sees of nu * sizeof(Header): a 32-bit product read as an int. */
  function SbrkArgument(nu: nat): (n: int)
  {
    var p := nu * HEADER % UINT;
    if p < UINT / 2 then p else p - UINT
  }

  /** morecore asks for what it records exactly when the size fits a positive int. */
  lemma SbrkArgumentExact(nu: nat)
    requires 0 < nu <= 0x2000_0000
    ensures SbrkArgument(nu) == nu * HEADER <==> nu < SBRK_UNITS
    ensures nu >= SBRK_UNITS ==> SbrkArgument(nu) <= 0
  {
  }

  // The free list.

  function Succ(ring: seq<int>, i: nat): (a: int)
    requires i < |ring|
  {
    if i + 1 < |ring| then ring[i + 1] else ring[0]
  }

  ghost predicate Linked(ring: seq<int>, ptr: map<int, int>)
  {
    && (forall i :: 0 <= i < |ring| ==> ring[i] in ptr)
    && (forall i {:trigger Succ(ring, i)} :: 0 <= i < |ring| ==> ptr[ring[i]] == Succ(ring, i))
  }

  /** Blocks in increasing address order, no two overlapping; base first, of size 0. */
  ghost predicate Ordered(base: int, ring: seq<int>, size: map<int, int>)
  {
    && |ring| > 0 && ring[0] == base
    && (forall i :: 0 <= i < |ring| ==> ring[i] in size)
    && (forall i :: 1 <= i < |ring| ==> size[ring[i]] >= 1) && size[base] == 0
    && (forall i, j {:trigger Lt(i, j)} :: 0 <= i && Lt(i, j) && j < |ring| ==>
        ring[i] + size[ring[i]] <= ring[j] && ring[i] < ring[j])
  }

  /** Names a pair of positions, to say which instance of Ordered a proof uses. */
  predicate Lt(i: int, j: int)
  {
    i < j
  }

  lemma OrderedDistinct(base: int, ring: seq<int>, size: map<int, int>)
    requires Ordered(base, ring, size)
    ensures forall i, j :: 0 <= i < j < |ring| ==> ring[i] < ring[j]
  {
    forall i, j | 0 <= i < j < |ring|
      ensures ring[i] < ring[j]
    {
      assert Lt(i, j);
    }
  }

  /** There is a gap between blocks i and i+1. */
  predicate Gap(ring: seq<int>, size: map<int, int>, i: nat)
    requires i + 1 < |ring| && ring[i] in size
  {
    ring[i] + size[ring[i]] < ring[i + 1]
  }

  /** No two free blocks are adjacent. */
  ghost predicate Coalesced(ring: seq<int>, size: map<int, int>)
    requires forall i :: 0 <= i < |ring| ==> ring[i] in size
  {
    forall i :: 0 <= i < |ring| - 1 ==> Gap(ring, size, i)
  }

  /** Blocks a (of na units) and b (of nb units) share no unit. */
  predicate Apart(a: int, na: int, b: int, nb: int)
  {
    a + na <= b || b + nb <= a
  }

  ghost predicate InFree(ring: seq<int>, size: map<int, int>, x: int)
  {
    exists i :: 0 <= i < |ring| && ring[i] in size && ring[i] <= x < ring[i] + size[ring[i]]
  }

  ghost predicate InLive(live: map<int, int>, x: int)
  {
    exists a :: a in live && a <= x < a + live[a]
  }

  /** The blocks handed out: above base, below the break, apart from each other and from the free ones. */
  ghost predicate LiveApart(base: int, ring: seq<int>, size: map<int, int>, live: map<int, int>, brk: int)
    requires forall i :: 0 <= i < |ring| ==> ring[i] in size
  {
    && (forall a :: a in live ==> a in size && live[a] == size[a] >= 1 && base < a && a + live[a] <= brk)
    && (forall a, b :: a in live && b in live && a != b ==> Apart(a, live[a], b, live[b]))
    && (forall a, i :: a in live && 0 <= i < |ring| ==> Apart(a, live[a], ring[i], size[ring[i]]))
    && (forall i :: 0 <= i < |ring| ==> ring[i] + size[ring[i]] <= brk)
  }

  /** Every unit from sbrk is in a free block or a live one. */
  ghost predicate Partition(ring: seq<int>, size: map<int, int>, live: map<int, int>, arena: set<int>)
  {
    forall x :: x in arena <==> InFree(ring, size, x) || InLive(live, x)
  }

  /** The free list, the live blocks and the arena, but for coalescing. */
  ghost predicate Listed(base: int, ring: seq<int>, ptr: map<int, int>, size: map<int, int>, live: map<int, int>,
                         brk: int, arena: set<int>)
  {
    && Linked(ring, ptr) && Ordered(base, ring, size)
    && LiveApart(base, ring, size, live, brk) && Partition(ring, size, live, arena)
  }

  /** The allocator's invariant once the list exists. */
  ghost predicate Whole(base: int, freep: int, ring: seq<int>, ptr: map<int, int>, size: map<int, int>,
                        live: map<int, int>, brk: int, arena: set<int>)
  {
    freep in ring && Listed(base, ring, ptr, size, live, brk, arena) && Coalesced(ring, size)
  }

  // free: the block goes into the list, then joins its neighbours.

  /** Block bp, so far live, linked in after element t. */
  lemma Insert(base: int, ring: seq<int>, ptr: map<int, int>, size: map<int, int>, live: map<int, int>, brk: int,
               arena: set<int>, t: nat, bp: int, ring': seq<int>, ptr': map<int, int>, live': map<int, int>)
    requires Listed(base, ring, ptr, size, live, brk, arena) && bp in live && bp !in ring
    requires t < |ring| && ring[t] < bp && (t + 1 < |ring| ==> bp < ring[t + 1])
    requires ring' == ring[..t + 1] + [bp] + ring[t + 1..] && ptr' == ptr[bp := Succ(ring, t)][ring[t] := bp]
    requires live' == live - {bp}
    ensures Listed(base, ring', ptr', size, live', brk, arena)
  {
    InsertOrdered(base, ring, size, live, brk, t, bp, ring');
    OrderedDistinct(base, ring, size);
    InsertLinked(ring, ptr, t, bp, ring', ptr');
    forall x
      ensures x in arena <==> InFree(ring', size, x) || InLive(live', x)
    {
      InsertInFree(ring, size, t, bp, ring', x);
      assert InLive(live, x) <==> InLive(live', x) || bp <= x < bp + live[bp];
    }
  }

  lemma InsertOrdered(base: int, ring: seq<int>, size: map<int, int>, live: map<int, int>, brk: int, t: nat, bp: int,
                      ring': seq<int>)
    requires Ordered(base, ring, size) && LiveApart(base, ring, size, live, brk) && bp in live
    requires t < |ring| && ring[t] < bp && (t + 1 < |ring| ==> bp < ring[t + 1])
    requires ring' == ring[..t + 1] + [bp] + ring[t + 1..]
    ensures Ordered(base, ring', size) && LiveApart(base, ring', size, live - {bp}, brk)
  {
    assert forall i :: 0 <= i <= t ==> ring'[i] == ring[i];
    assert forall i :: t + 1 < i < |ring'| ==> ring'[i] == ring[i - 1];
    assert ring'[t + 1] == bp && live[bp] == size[bp];
    forall i, j | 0 <= i && Lt(i, j) && j < |ring'|
      ensures ring'[i] + size[ring'[i]] <= ring'[j] && ring'[i] < ring'[j]
    {
      if j == t + 1 {
        assert Apart(bp, live[bp], ring[i], size[ring[i]]) && (Lt(i, t) || i == t);
      } else if i == t + 1 {
        assert Apart(bp, live[bp], ring[j - 1], size[ring[j - 1]]) && (Lt(t + 1, j - 1) || j - 1 == t + 1);
      } else {
        assert Lt(if i <= t then i else i - 1, if j <= t then j else j - 1);
      }
    }
  }

  lemma InsertLinked(ring: seq<int>, ptr: map<int, int>, t: nat, bp: int, ring': seq<int>, ptr': map<int, int>)
    requires Linked(ring, ptr) && t < |ring| && bp !in ring && forall i, j :: 0 <= i < j < |ring| ==> ring[i] != ring[j]
    requires ring' == ring[..t + 1] + [bp] + ring[t + 1..] && ptr' == ptr[bp := Succ(ring, t)][ring[t] := bp]
    ensures Linked(ring', ptr')
  {
    forall i | 0 <= i < |ring'|
      ensures ring'[i] in ptr' && ptr'[ring'[i]] == Succ(ring', i)
    {
      if i > t + 1 {
        assert ring'[i] == ring[i - 1] && ptr[ring[i - 1]] == Succ(ring, i - 1);
      } else if i < t {
        assert ring'[i] == ring[i] && ptr[ring[i]] == Succ(ring, i);
      }
    }
  }

  lemma InsertInFree(ring: seq<int>, size: map<int, int>, t: nat, bp: int, ring': seq<int>, x: int)
    requires t < |ring| && bp in size && ring' == ring[..t + 1] + [bp] + ring[t + 1..]
    ensures InFree(ring', size, x) <==> InFree(ring, size, x) || bp <= x < bp + size[bp]
  {
    if InFree(ring, size, x) {
      var i :| 0 <= i < |ring| && ring[i] in size && ring[i] <= x < ring[i] + size[ring[i]];
      assert ring'[if i <= t then i else i + 1] == ring[i];
    }
    if InFree(ring', size, x) {
      var i :| 0 <= i < |ring'| && ring'[i] in size && ring'[i] <= x < ring'[i] + size[ring'[i]];
      assert i == t + 1 || ring'[i] == ring[if i <= t then i else i - 1];
    }
    assert ring'[t + 1] == bp;
  }

  /** Blocks k and k+1, adjacent, become one. */
  lemma Merge(base: int, ring: seq<int>, ptr: map<int, int>, size: map<int, int>, live: map<int, int>, brk: int,
              arena: set<int>, k: nat, ring': seq<int>, ptr': map<int, int>, size': map<int, int>)
    requires Listed(base, ring, ptr, size, live, brk, arena) && 1 <= k && k + 1 < |ring|
    requires ring[k] + size[ring[k]] == ring[k + 1]
    requires ring' == ring[..k + 1] + ring[k + 2..] && ptr' == ptr[ring[k] := ptr[ring[k + 1]]]
    requires size' == size[ring[k] := size[ring[k]] + size[ring[k + 1]]]
    ensures Listed(base, ring', ptr', size', live, brk, arena)
  {
    OrderedDistinct(base, ring, size);
    MergeLinked(ring, ptr, k, ring', ptr');
    MergeOrdered(base, ring, size, live, brk, k, ring', size');
    forall x
      ensures InFree(ring', size', x) <==> InFree(ring, size, x)
    {
      MergeInFree(base, ring, size, k, ring', size', x);
    }
  }

  lemma MergeOrdered(base: int, ring: seq<int>, size: map<int, int>, live: map<int, int>, brk: int, k: nat,
                     ring': seq<int>, size': map<int, int>)
    requires Ordered(base, ring, size) && LiveApart(base, ring, size, live, brk) && 1 <= k && k + 1 < |ring|
    requires ring[k] + size[ring[k]] == ring[k + 1]
    requires ring' == ring[..k + 1] + ring[k + 2..] && size' == size[ring[k] := size[ring[k]] + size[ring[k + 1]]]
    ensures Ordered(base, ring', size') && LiveApart(base, ring', size', live, brk)
  {
    assert forall i :: 0 <= i <= k ==> ring'[i] == ring[i];
    assert forall i :: k < i < |ring'| ==> ring'[i] == ring[i + 1];
    forall i | 0 <= i < |ring'|
      ensures ring'[i] in size'
      ensures size'[ring'[i]] ==
        if i == k then size[ring[k]] + size[ring[k + 1]] else size[ring[if i < k then i else i + 1]]
    {
      assert Lt(i, k) || i == k || Lt(k, i + 1);
    }
    forall i, j | 0 <= i && Lt(i, j) && j < |ring'|
      ensures ring'[i] + size'[ring'[i]] <= ring'[j] && ring'[i] < ring'[j]
    {
      assert Lt(if i <= k then i else i + 1, if j <= k then j else j + 1);
      if i == k {
        assert Lt(k + 1, j + 1);
      }
    }
    forall a | a in live
      ensures a in size' && live[a] == size'[a]
      ensures forall i :: 0 <= i < |ring'| ==> Apart(a, live[a], ring'[i], size'[ring'[i]])
    {
      assert Apart(a, live[a], ring[k], size[ring[k]]) && Apart(a, live[a], ring[k + 1], size[ring[k + 1]]);
      assert a != ring[k];
      forall i | 0 <= i < |ring'|
        ensures Apart(a, live[a], ring'[i], size'[ring'[i]])
      {
        assert Apart(a, live[a], ring[if i <= k then i else i + 1], size[ring[if i <= k then i else i + 1]]);
      }
    }
  }

  lemma MergeLinked(ring: seq<int>, ptr: map<int, int>, k: nat, ring': seq<int>, ptr': map<int, int>)
    requires Linked(ring, ptr) && k + 1 < |ring| && forall i, j :: 0 <= i < j < |ring| ==> ring[i] != ring[j]
    requires ring' == ring[..k + 1] + ring[k + 2..] && ptr' == ptr[ring[k] := ptr[ring[k + 1]]]
    ensures Linked(ring', ptr')
  {
    forall i | 0 <= i < |ring'|
      ensures ring'[i] in ptr' && ptr'[ring'[i]] == Succ(ring', i)
    {
      var j := if i <= k then i else i + 1;
      assert ring'[i] == ring[j] && ptr[ring[j]] == Succ(ring, j);
      assert ptr[ring[k + 1]] == Succ(ring, k + 1);
    }
  }

  lemma MergeInFree(base: int, ring: seq<int>, size: map<int, int>, k: nat, ring': seq<int>, size': map<int, int>,
                    x: int)
    requires Ordered(base, ring, size) && 1 <= k && k + 1 < |ring| && ring[k] + size[ring[k]] == ring[k + 1]
    requires ring' == ring[..k + 1] + ring[k + 2..]
    requires size' == size[ring[k] := size[ring[k]] + size[ring[k + 1]]]
    ensures InFree(ring', size', x) <==> InFree(ring, size, x)
  {
    if InFree(ring, size, x) {
      var i :| 0 <= i < |ring| && ring[i] in size && ring[i] <= x < ring[i] + size[ring[i]];
      var j := if i <= k then i else i - 1;
      assert ring'[j] == if i == k + 1 then ring[k] else ring[i];
    }
    if InFree(ring', size', x) {
      var j :| 0 <= j < |ring'| && ring'[j] in size' && ring'[j] <= x < ring'[j] + size'[ring'[j]];
      assert ring'[j] == ring[if j <= k then j else j + 1];
      assert ring[k + 1] in size;
    }
  }

  lemma MergeGaps(base: int, ring: seq<int>, size: map<int, int>, k: nat, ring': seq<int>, size': map<int, int>, i: nat)
    requires Ordered(base, ring, size) && k + 1 < |ring| && ring[k] + size[ring[k]] == ring[k + 1]
    requires ring' == ring[..k + 1] + ring[k + 2..] && size' == size[ring[k] := size[ring[k]] + size[ring[k + 1]]]
    requires i + 1 < |ring'| && Gap(ring, size, if i < k then i else i + 1)
    ensures ring'[i] in size' && Gap(ring', size', i)
  {
    assert Lt(i, k) || i == k || Lt(k, i + 1);
  }

  /** The list, with gaps between neighbours except perhaps after elements lo..hi. */
  ghost predicate Chain(base: int, ring: seq<int>, ptr: map<int, int>, size: map<int, int>, live: map<int, int>,
                        brk: int, arena: set<int>, lo: int, hi: int)
  {
    && Listed(base, ring, ptr, size, live, brk, arena)
    && forall i :: 0 <= i < |ring| - 1 && !(lo <= i <= hi) ==> Gap(ring, size, i)
  }

  lemma InsertChain(base: int, ring: seq<int>, ptr: map<int, int>, size: map<int, int>, live: map<int, int>, brk: int,
                    arena: set<int>, t: nat, bp: int, ring': seq<int>, ptr': map<int, int>, live': map<int, int>)
    requires Listed(base, ring, ptr, size, live, brk, arena) && Coalesced(ring, size) && bp in live && bp !in ring
    requires t < |ring| && ring[t] < bp && (t + 1 < |ring| ==> bp < ring[t + 1])
    requires ring' == ring[..t + 1] + [bp] + ring[t + 1..] && ptr' == ptr[bp := Succ(ring, t)][ring[t] := bp]
    requires live' == live - {bp}
    ensures Chain(base, ring', ptr', size, live', brk, arena, t, t + 1)
  {
    Insert(base, ring, ptr, size, live, brk, arena, t, bp, ring', ptr', live');
    forall i | 0 <= i < |ring'| - 1 && !(t <= i <= t + 1)
      ensures Gap(ring', size, i)
    {
      assert Gap(ring, size, if i < t then i else i - 1);
    }
  }

  /** Merging the adjacent blocks k and k+1 leaves a gap after k. */
  lemma MergeChain(base: int, ring: seq<int>, ptr: map<int, int>, size: map<int, int>, live: map<int, int>, brk: int,
                   arena: set<int>, lo: int, k: nat, ring': seq<int>, ptr': map<int, int>, size': map<int, int>)
    requires Chain(base, ring, ptr, size, live, brk, arena, lo, k) && 0 <= lo <= k && 1 <= k && k + 1 < |ring|
    requires ring[k] + size[ring[k]] == ring[k + 1]
    requires ring' == ring[..k + 1] + ring[k + 2..] && ptr' == ptr[ring[k] := ptr[ring[k + 1]]]
    requires size' == size[ring[k] := size[ring[k]] + size[ring[k + 1]]]
    ensures Chain(base, ring', ptr', size', live, brk, arena, lo, k - 1)
  {
    Merge(base, ring, ptr, size, live, brk, arena, k, ring', ptr', size');
    forall i | 0 <= i < |ring'| - 1 && !(lo <= i <= k - 1)
      ensures Gap(ring', size', i)
    {
      MergeGaps(base, ring, size, k, ring', size', i);
    }
  }

  lemma GapChain(base: int, ring: seq<int>, ptr: map<int, int>, size: map<int, int>, live: map<int, int>, brk: int,
                 arena: set<int>, lo: int, k: nat)
    requires Chain(base, ring, ptr, size, live, brk, arena, lo, k) && k < |ring|
    requires ring[k] + size[ring[k]] != Succ(ring, k)
    ensures Chain(base, ring, ptr, size, live, brk, arena, lo, k - 1)
  {
    assert Lt(k, k + 1);
  }

  /** Element k joins its successor if they are adjacent; either way a gap follows it then. */
  lemma JoinAfter(base: int, ring: seq<int>, ptr: map<int, int>, size: map<int, int>, live: map<int, int>, brk: int,
                  arena: set<int>, lo: int, k: nat, p: int, q: int)
    returns (ring': seq<int>, ptr': map<int, int>, size': map<int, int>)
    requires k < |ring| && ring[k] == p && Succ(ring, k) == q
    requires Chain(base, ring, ptr, size, live, brk, arena, lo, k) && 0 <= lo <= k < |ring| && (k > 0 || |ring| > 1)
    ensures Chain(base, ring', ptr', size', live, brk, arena, lo, k - 1)
    ensures |ring'| > k && (forall j :: 0 <= j <= k ==> ring'[j] == ring[j]) && (p + size[p] != q ==> ring' == ring)
    ensures p in size && q in size && q in ptr
    ensures if p + size[p] == q then ptr' == ptr[p := ptr[q]] && size' == size[p := size[p] + size[q]]
      else ptr' == ptr && size' == size
  {
    if p + size[p] != q {
      GapChain(base, ring, ptr, size, live, brk, arena, lo, k);
      return ring, ptr, size;
    }
    Adjacent(base, ring, size, k);
    ring', ptr', size' := ring[..k + 1] + ring[k + 2..], ptr[p := ptr[q]], size[p := size[p] + size[q]];
    MergeChain(base, ring, ptr, size, live, brk, arena, lo, k, ring', ptr', size');
  }

  lemma Adjacent(base: int, ring: seq<int>, size: map<int, int>, k: nat)
    requires Ordered(base, ring, size) && k < |ring| && (k > 0 || |ring| > 1)
    requires ring[k] + size[ring[k]] == Succ(ring, k)
    ensures 1 <= k && k + 1 < |ring|
  {
    assert Lt(0, k) == (k > 0) && Lt(k, k + 1);
  }

  /** free's two assignments to the words of bp and of p, where p is the element bp belongs after. */
  ghost predicate FreeWords(ptr: map<int, int>, size: map<int, int>, p: int, q: int, bp: int, ptr': map<int, int>,
                            size': map<int, int>)
    requires p in size && q in size && bp in size && q in ptr
  {
    var sizeA := if bp + size[bp] == q then size[bp := size[bp] + size[q]] else size;
    var ptrA := ptr[bp := if bp + size[bp] == q then ptr[q] else q];
    && size' == (if p + sizeA[p] == bp then sizeA[p := sizeA[p] + sizeA[bp]] else sizeA)
    && ptr' == ptrA[p := if p + sizeA[p] == bp then ptrA[bp] else bp]
  }

  ghost predicate HasBlock(ring: seq<int>, size: map<int, int>, n: int)
  {
    exists i :: 0 <= i < |ring| && ring[i] in size && size[ring[i]] >= n
  }

  /** The list after free(bp): whole, coalesced, and with a block at least as large as bp's. */
  lemma Release(base: int, ring: seq<int>, ptr: map<int, int>, size: map<int, int>, live: map<int, int>, brk: int,
                arena: set<int>, t: nat, p: int, bp: int, ptr': map<int, int>, size': map<int, int>,
                live': map<int, int>) returns (ring': seq<int>)
    requires Listed(base, ring, ptr, size, live, brk, arena) && Coalesced(ring, size) && bp in live && bp !in ring
    requires t < |ring| && ring[t] < bp && (t + 1 < |ring| ==> bp < ring[t + 1])
    requires Succ(ring, t) in size && Succ(ring, t) in ptr
    requires FreeWords(ptr, size, ring[t], Succ(ring, t), bp, ptr', size')
    requires live' == live - {bp} && p == ring[t]
    ensures Whole(base, p, ring', ptr', size', live', brk, arena)
    ensures HasBlock(ring', size', live[bp])
  {
    var q := Succ(ring, t);
    var ring1, ptr1 := ring[..t + 1] + [bp] + ring[t + 1..], ptr[bp := q][p := bp];
    InsertChain(base, ring, ptr, size, live, brk, arena, t, bp, ring1, ptr1, live');
    assert Succ(ring1, t + 1) == q;
    var ring2, ptr2, size2 := JoinAfter(base, ring1, ptr1, size, live', brk, arena, t, t + 1, bp, q);
    assert ring2[t] == p && ring2[t + 1] == bp && Succ(ring2, t) == bp;
    var ring3, ptr3, size3 := JoinAfter(base, ring2, ptr2, size2, live', brk, arena, t, t, p, bp);
    ring' := ring3;
    SameWords(ptr, size, p, q, bp, ptr1, ptr2, size2, ptr3, size3, ptr', size');
    if p + size2[p] != bp {
      assert ring3[t + 1] == bp;
    }
  }

  lemma SameWords(ptr: map<int, int>, size: map<int, int>, p: int, q: int, bp: int, ptr1: map<int, int>,
                  ptr2: map<int, int>, size2: map<int, int>, ptr3: map<int, int>, size3: map<int, int>,
                  ptr': map<int, int>, size': map<int, int>)
    requires p in size && q in size && bp in size && q in ptr && p != bp && q != bp && (bp + size[bp] == q ==> p != q)
    requires ptr1 == ptr[bp := q][p := bp]
    requires if bp + size[bp] == q then ptr2 == ptr1[bp := ptr1[q]] && size2 == size[bp := size[bp] + size[q]]
      else ptr2 == ptr1 && size2 == size
    requires if p + size2[p] == bp then ptr3 == ptr2[p := ptr2[bp]] && size3 == size2[p := size2[p] + size2[bp]]
      else ptr3 == ptr2 && size3 == size2
    requires FreeWords(ptr, size, p, q, bp, ptr', size')
    ensures ptr' == ptr3 && size' == size3
  {
  }

  /** The element before c on the ring. */
  function Pred(ring: seq<int>, c: nat): (a: int)
    requires c < |ring|
  {
    if c > 0 then ring[c - 1] else ring[|ring| - 1]
  }

  /** What morecore asks for to satisfy a request of nu units. */
  function CoreUnits(nu: nat): (n: nat)
  {
    if nu < 4096 then 4096 else nu
  }

  predicate Within(a: int, n: int, x: int)
  {
    a <= x < a + n
  }

  function Span(a: int, n: nat): (s: set<int>)
  {
    set x | a <= x < a + n && Within(a, n, x)
  }

  /** Position i lies strictly between f and c, going round. */
  predicate Passed(i: int, f: int, c: int)
  {
    if f < c then f < i < c else i > f || i < c
  }

  /** malloc's search: p is element c, prevp the one before, and everything passed since freep is too small. */
  ghost predicate Lap(ring: seq<int>, size: map<int, int>, ptr: map<int, int>, freep: int, prevp: int, p: int, f: int,
                      c: int, n: int)
  {
    && 0 <= f < |ring| && 0 <= c < |ring| && freep == ring[f] && p == ring[c] && prevp == Pred(ring, c)
    && p in size && p in ptr
    && forall i {:trigger Passed(i, f, c)} :: 0 <= i < |ring| && Passed(i, f, c) ==>
       ring[i] in size && size[ring[i]] < n
  }

  /** When malloc succeeds, and when it grows the arena; `had` is whether the list held n units. */
  ghost predicate Outcome(n: nat, answer: int, had: bool, arena: set<int>, arena': set<int>, r: Allocation)
  {
    && (r.Block? <==> had || (answer != -1 && n < SBRK_UNITS))
    && (r.Fault? <==> !had && answer != -1 && n >= SBRK_UNITS)
    && arena' == if r.Block? && !had then arena + Span(answer, CoreUnits(n)) else arena
  }

  /** A successful malloc makes a new live block of n units; a failed one changes no live block. */
  ghost predicate Given(live: map<int, int>, live': map<int, int>, n: nat, r: Allocation)
  {
    if r.Block? then r.addr - 1 !in live && live' == live[r.addr - 1 := n] else live' == live
  }

  lemma After(ring: seq<int>, freep: int) returns (f: nat, c: nat)
    requires freep in ring
    ensures f < |ring| && ring[f] == freep && c == (if f + 1 < |ring| then f + 1 else 0) && ring[c] == Succ(ring, f)
  {
    f :| 0 <= f < |ring| && ring[f] == freep;
    c := if f + 1 < |ring| then f + 1 else 0;
  }

  /** Back at freep with everything too small, the list has no block of n units. */
  lemma FullLap(base: int, ring: seq<int>, size: map<int, int>, ptr: map<int, int>, freep: int, prevp: int, p: int,
                f: int, c: int, n: int)
    requires Ordered(base, ring, size) && Lap(ring, size, ptr, freep, prevp, p, f, c, n) && p == freep && size[p] < n
    ensures !HasBlock(ring, size, n)
  {
    assert Lt(c, f) == (c < f) && Lt(f, c) == (f < c);
    if HasBlock(ring, size, n) {
      var i :| 0 <= i < |ring| && ring[i] in size && size[ring[i]] >= n;
      assert c == f;
      assert i != f ==> Passed(i, f, c);
      assert false;
    }
  }

  lemma NextInLap(base: int, ring: seq<int>, size: map<int, int>, ptr: map<int, int>, freep: int, prevp: int, p: int,
                  f: int, c: int, n: int)
    requires Ordered(base, ring, size) && Linked(ring, ptr) && Lap(ring, size, ptr, freep, prevp, p, f, c, n)
    requires p != freep && size[p] < n
    ensures Lap(ring, size, ptr, freep, p, ptr[p], f, if c + 1 < |ring| then c + 1 else 0, n)
  {
    var c' := if c + 1 < |ring| then c + 1 else 0;
    assert Succ(ring, c) == ptr[p];
    forall i | 0 <= i < |ring| && Passed(i, f, c')
      ensures size[ring[i]] < n
    {
      assert i == c || Passed(i, f, c);
    }
  }

  lemma Unadd(live: map<int, int>, a: int, n: int)
    requires a !in live
    ensures live[a := n] - {a} == live
  {
  }

  /** A fresh block above the break counts as live until free puts it in the list. */
  lemma Supply(base: int, freep: int, ring: seq<int>, ptr: map<int, int>, size: map<int, int>, live: map<int, int>,
               brk: int, arena: set<int>, a: int, n: nat, size': map<int, int>, live': map<int, int>, arena': set<int>)
    requires Whole(base, freep, ring, ptr, size, live, brk, arena) && a >= brk && n >= 1 && 0 < base < brk
    requires size' == size[a := n] && live' == live[a := n] && arena' == arena + Span(a, n)
    ensures a !in live && Whole(base, freep, ring, ptr, size', live', a + n, arena')
  {
    SupplyApart(base, ring, size, live, brk, a, n, size', live');
    forall i | 0 <= i < |ring| - 1
      ensures Gap(ring, size', i)
    {
      assert Gap(ring, size, i);
    }
    forall x
      ensures x in arena' <==> InFree(ring, size', x) || InLive(live', x)
    {
      assert x in arena <==> InFree(ring, size, x) || InLive(live, x);
      assert InFree(ring, size', x) <==> InFree(ring, size, x);
      AddLive(live, a, n, x);
    }
  }

  lemma SupplyApart(base: int, ring: seq<int>, size: map<int, int>, live: map<int, int>, brk: int, a: int, n: nat,
                    size': map<int, int>, live': map<int, int>)
    requires Ordered(base, ring, size) && LiveApart(base, ring, size, live, brk) && a >= brk && n >= 1 && 0 < base < brk
    requires size' == size[a := n] && live' == live[a := n]
    ensures a !in live && a !in ring && Ordered(base, ring, size') && LiveApart(base, ring, size', live', a + n)
    ensures forall i :: 0 <= i < |ring| ==> size'[ring[i]] == size[ring[i]]
  {
    assert a !in live;
    forall i | 0 <= i < |ring|
      ensures ring[i] != a && size'[ring[i]] == size[ring[i]]
    {
      assert ring[i] + size[ring[i]] <= brk && (i == 0 || size[ring[i]] >= 1);
    }
  }

  lemma AddLive(live: map<int, int>, a: int, n: int, x: int)
    requires a !in live
    ensures InLive(live[a := n], x) <==> InLive(live, x) || Within(a, n, x)
  {
    var live' := live[a := n];
    assert a in live' && live'[a] == n;
    if InLive(live, x) {
      var b :| b in live && b <= x < b + live[b];
      assert b in live' && live'[b] == live[b];
    }
  }

  /** The whole of free block c is handed out. */
  lemma TakeWhole(base: int, freep: int, ring: seq<int>, ptr: map<int, int>, size: map<int, int>, live: map<int, int>,
                  brk: int, arena: set<int>, c: nat, prevp: int, p: int, n: nat, ptr': map<int, int>)
    returns (ring': seq<int>, live': map<int, int>)
    requires Whole(base, freep, ring, ptr, size, live, brk, arena) && c < |ring| && ring[c] == p && size[p] == n >= 1
    requires prevp == Pred(ring, c)
    requires prevp in ptr && p in ptr && ptr' == ptr[prevp := ptr[p]]
    ensures prevp >= base && p !in live && live' == live[p := n]
    ensures Whole(base, prevp, ring', ptr', size, live', brk, arena)
  {
    ring', live' := ring[..c] + ring[c + 1..], live[p := n];
    assert c > 0 && (c > 1 ==> Lt(0, c - 1));
    WholeTaken(base, freep, ring, ptr, size, live, brk, arena, c, ring', ptr', live');
  }

  lemma WholeTaken(base: int, freep: int, ring: seq<int>, ptr: map<int, int>, size: map<int, int>, live: map<int, int>,
                   brk: int, arena: set<int>, c: nat, ring': seq<int>, ptr': map<int, int>, live': map<int, int>)
    requires Whole(base, freep, ring, ptr, size, live, brk, arena) && 1 <= c < |ring|
    requires ring' == ring[..c] + ring[c + 1..] && ptr' == ptr[ring[c - 1] := ptr[ring[c]]]
    requires live' == live[ring[c] := size[ring[c]]]
    ensures ring[c] !in live && Whole(base, ring[c - 1], ring', ptr', size, live', brk, arena)
  {
    TakeOrdered(base, ring, size, live, brk, c, ring', live');
    OrderedDistinct(base, ring, size);
    MergeLinked(ring, ptr, c - 1, ring', ptr');
    forall x
      ensures x in arena <==> InFree(ring', size, x) || InLive(live', x)
    {
      TakeInFree(ring, size, c, ring', x);
      AddLive(live, ring[c], size[ring[c]], x);
    }
    TakeGaps(base, ring, size, c, ring');
    assert ring'[c - 1] == ring[c - 1];
  }

  lemma TakeGaps(base: int, ring: seq<int>, size: map<int, int>, c: nat, ring': seq<int>)
    requires Ordered(base, ring, size) && Coalesced(ring, size) && 1 <= c < |ring| && ring' == ring[..c] + ring[c + 1..]
    ensures (forall i :: 0 <= i < |ring'| ==> ring'[i] in size) && Coalesced(ring', size)
  {
    assert forall i :: 0 <= i < |ring'| ==> ring'[i] == ring[if i < c then i else i + 1];
    forall i | 0 <= i < |ring'| - 1
      ensures Gap(ring', size, i)
    {
      assert Gap(ring, size, if i < c then i else i + 1) && Lt(c, c + 1);
    }
  }

  lemma TakeOrdered(base: int, ring: seq<int>, size: map<int, int>, live: map<int, int>, brk: int, c: nat,
                    ring': seq<int>, live': map<int, int>)
    requires Ordered(base, ring, size) && LiveApart(base, ring, size, live, brk) && 1 <= c < |ring|
    requires ring' == ring[..c] + ring[c + 1..] && live' == live[ring[c] := size[ring[c]]]
    ensures ring[c] !in live && Ordered(base, ring', size) && LiveApart(base, ring', size, live', brk)
  {
    var p := ring[c];
    assert forall i :: 0 <= i < |ring'| ==> ring'[i] == ring[if i < c then i else i + 1];
    forall i, j | 0 <= i && Lt(i, j) && j < |ring'|
      ensures ring'[i] + size[ring'[i]] <= ring'[j] && ring'[i] < ring'[j]
    {
      assert Lt(if i < c then i else i + 1, if j < c then j else j + 1);
    }
    assert forall a :: a in live ==> Apart(a, live[a], p, size[p]);
    assert Lt(0, c);
    forall i | 0 <= i < |ring'|
      ensures Apart(p, size[p], ring'[i], size[ring'[i]])
    {
      assert if i < c then Lt(i, c) else Lt(c, i + 1);
    }
  }

  lemma TakeInFree(ring: seq<int>, size: map<int, int>, c: nat, ring': seq<int>, x: int)
    requires c < |ring| && ring[c] in size && ring' == ring[..c] + ring[c + 1..]
    ensures InFree(ring, size, x) <==> InFree(ring', size, x) || Within(ring[c], size[ring[c]], x)
  {
    if InFree(ring, size, x) {
      var i :| 0 <= i < |ring| && ring[i] in size && ring[i] <= x < ring[i] + size[ring[i]];
      assert i == c || ring'[if i < c then i else i - 1] == ring[i];
    }
    if InFree(ring', size, x) {
      var i :| 0 <= i < |ring'| && ring'[i] in size && ring'[i] <= x < ring'[i] + size[ring'[i]];
      assert ring'[i] == ring[if i < c then i else i + 1];
    }
  }

  /** The last n units of free block c are handed out. */
  lemma TakeTail(base: int, freep: int, ring: seq<int>, ptr: map<int, int>, size: map<int, int>, live: map<int, int>,
                 brk: int, arena: set<int>, c: nat, prevp: int, p: int, n: nat, q: int, size': map<int, int>)
    returns (live': map<int, int>)
    requires Whole(base, freep, ring, ptr, size, live, brk, arena) && c < |ring| && ring[c] == p && 1 <= n < size[p]
    requires prevp == Pred(ring, c)
    requires q == p + (size[p] - n) && size' == size[p := size[p] - n][q := n]
    ensures prevp >= base && q !in live && live' == live[q := n]
    ensures Whole(base, prevp, ring, ptr, size', live', brk, arena)
  {
    live' := live[q := n];
    assert c > 0 && (c > 1 ==> Lt(0, c - 1));
    TailOrdered(base, ring, size, live, brk, c, n, q, size', live');
    forall x
      ensures x in arena <==> InFree(ring, size', x) || InLive(live', x)
    {
      TailInFree(ring, size, c, n, size', x);
      AddLive(live, q, n, x);
    }
    forall i | 0 <= i < |ring| - 1
      ensures Gap(ring, size', i)
    {
      assert Gap(ring, size, i);
    }
  }

  lemma TailOrdered(base: int, ring: seq<int>, size: map<int, int>, live: map<int, int>, brk: int, c: nat, n: nat,
                    q: int, size': map<int, int>, live': map<int, int>)
    requires Ordered(base, ring, size) && LiveApart(base, ring, size, live, brk) && 1 <= c < |ring|
    requires 1 <= n < size[ring[c]]
    requires q == ring[c] + size[ring[c]] - n && size' == size[ring[c] := size[ring[c]] - n][q := n]
    requires live' == live[q := n]
    ensures q !in live && q !in ring && Ordered(base, ring, size') && LiveApart(base, ring, size', live', brk)
    ensures forall i :: 0 <= i < |ring| ==> size'[ring[i]] == if i == c then size[ring[c]] - n else size[ring[i]]
  {
    TailApart(base, ring, size, c, n, q);
    TailLive(base, ring, size, live, brk, c, n, q);
    assert Lt(0, c);
    assert forall i :: 0 <= i < |ring| ==> size'[ring[i]] == if i == c then size[ring[c]] - n else size[ring[i]];
    assert forall a :: a in live ==> a in size' && size'[a] == size[a];
    TailLives(base, ring, size, live, brk, c, n, q, size', live');
  }

  lemma TailLives(base: int, ring: seq<int>, size: map<int, int>, live: map<int, int>, brk: int, c: nat, n: nat, q: int,
                  size': map<int, int>, live': map<int, int>)
    requires Ordered(base, ring, size) && LiveApart(base, ring, size, live, brk) && 1 <= c < |ring|
    requires 1 <= n < size[ring[c]] && q == ring[c] + size[ring[c]] - n
    requires q in size' && size'[q] == n && live' == live[q := n] && q !in live
    requires forall i :: 0 <= i < |ring| ==>
      ring[i] in size' && size'[ring[i]] == if i == c then size[ring[c]] - n else size[ring[i]]
    requires forall a :: a in live ==> a in size' && size'[a] == size[a] && Apart(a, live[a], ring[c], size[ring[c]])
    requires forall i :: 0 <= i < |ring| && i != c ==> Apart(ring[c], size[ring[c]], ring[i], size[ring[i]])
    ensures LiveApart(base, ring, size', live', brk)
  {
    assert Lt(0, c);
    forall a | a in live
      ensures Apart(a, live[a], q, n) && forall i :: 0 <= i < |ring| ==> Apart(a, live[a], ring[i], size'[ring[i]])
    {
      assert forall i :: 0 <= i < |ring| ==> Apart(a, live[a], ring[i], size[ring[i]]);
    }
  }

  lemma TailLive(base: int, ring: seq<int>, size: map<int, int>, live: map<int, int>, brk: int, c: nat, n: nat, q: int)
    requires Ordered(base, ring, size) && LiveApart(base, ring, size, live, brk) && 1 <= c < |ring|
    requires 1 <= n < size[ring[c]] && q == ring[c] + size[ring[c]] - n
    ensures forall a :: a in live ==> a != q && a != ring[c] && Apart(a, live[a], ring[c], size[ring[c]])
  {
  }

  /** Block c is apart from the other free blocks, so its tail starts none of them. */
  lemma TailApart(base: int, ring: seq<int>, size: map<int, int>, c: nat, n: nat, q: int)
    requires Ordered(base, ring, size) && c < |ring| && 1 <= n < size[ring[c]] && q == ring[c] + size[ring[c]] - n
    ensures forall i :: 0 <= i < |ring| ==>
      ring[i] != q && (i != c ==> ring[i] != ring[c] && Apart(ring[c], size[ring[c]], ring[i], size[ring[i]]))
  {
    forall i | 0 <= i < |ring|
      ensures ring[i] != q && (i != c ==> ring[i] != ring[c] && Apart(ring[c], size[ring[c]], ring[i], size[ring[i]]))
    {
      assert if i < c then Lt(i, c) else i == c || Lt(c, i);
    }
  }

  lemma TailInFree(ring: seq<int>, size: map<int, int>, c: nat, n: nat, size': map<int, int>, x: int)
    requires c < |ring| && (forall i :: 0 <= i < |ring| ==> ring[i] in size && ring[i] in size')
    requires 1 <= n < size[ring[c]]
    requires forall i :: 0 <= i < |ring| ==> size'[ring[i]] == if i == c then size[ring[c]] - n else size[ring[i]]
    ensures InFree(ring, size, x) <==> InFree(ring, size', x) || Within(ring[c] + size[ring[c]] - n, n, x)
  {
    if InFree(ring, size, x) && !Within(ring[c] + size[ring[c]] - n, n, x) {
      var i :| 0 <= i < |ring| && ring[i] in size && ring[i] <= x < ring[i] + size[ring[i]];
      assert ring[i] <= x < ring[i] + size'[ring[i]];
    }
    assert ring[c] in size;
  }

  datatype Allocation = Block(addr: int) | NoMemory | Fault

  class Heap {
    const base: int
    var ptr: map<int, int>
    var size: map<int, int>
    var freep: int  // 0 is the null pointer
    var brk: int    // where sbrk will next supply memory, or above
    ghost var ring: seq<int>
    ghost var live: map<int, int>
    ghost var arena: set<int>

    ghost predicate Valid()
      reads this
    {
      && 0 < base < brk
      && if freep == 0 then ring == [] && live == map[] && arena == {}
         else Whole(base, freep, ring, ptr, size, live, brk, arena)
    }

    constructor (base: int, brk: int)
      requires 0 < base < brk
      ensures Valid() && freep == 0 && this.base == base && this.brk == brk
    {
      this.base, this.brk := base, brk;
      ptr, size, freep := map[], map[], 0;
      ring, live, arena := [], map[], {};
    }

    /** free's search: the list element after which bp belongs, from wherever freep points. */
    method FindPlace(bp: int) returns (p: int, ghost t: nat)
      requires freep in ring && Linked(ring, ptr) && Ordered(base, ring, size)
      requires bp !in ring && base < bp
      ensures t < |ring| && p == ring[t] && base <= p < bp && (t + 1 < |ring| ==> bp < ring[t + 1])
    {
      t := PlaceOf(base, ring, size, bp);
      ghost var n := |ring|;
      ghost var c :| 0 <= c < n && ring[c] == freep;
      p := freep;
      while !(bp > p && bp < ptr[p])
        invariant 0 <= c < n && p == ring[c] && p in ptr && ptr[p] == Succ(ring, c)
        decreases if c <= t then t - c else t - c + n
      {
        StopsAt(base, ring, size, bp, t, c);
        if p >= ptr[p] && (bp > p || bp < ptr[p]) {
          break;
        }
        p := ptr[p];
        c := if c + 1 < n then c + 1 else 0;
      }
      StopsAt(base, ring, size, bp, t, c);
      assert t == 0 || Lt(0, t);
    }

    /** free: the block leaves the live ones and joins the list, merged with whichever neighbours it
        touches, wherever freep points. */
    method Free(ap: int)
      requires Valid() && ap - 1 in live
      modifies this`ptr, this`size, this`freep, this`ring, this`live
      ensures Valid() && freep != 0 && live == old(live) - {ap - 1}
      ensures HasBlock(ring, size, old(live[ap - 1]))
    {
      var bp := ap - 1;
      LiveNotFree(base, ring, size, live, brk, bp);
      var p; ghost var t;
      p, t := FindPlace(bp);
      assert ptr[p] == Succ(ring, t);

      ghost var ptr0, size0 := ptr, size;
      Relink(p, bp);
      freep := p;
      ghost var live' := live - {bp};
      ring := Release(base, ring, ptr0, size0, live, brk, arena, t, p, bp, ptr, size, live');
      live := live';
    }

    /** free's assignments, once p is found. */
    method Relink(p: int, bp: int)
      requires p in ptr && p in size && bp in size && ptr[p] in ptr && ptr[p] in size && p != bp && ptr[p] != bp
      modifies this`ptr, this`size
      ensures FreeWords(old(ptr), old(size), p, old(ptr[p]), bp, ptr, size)
    {
      if bp + size[bp] == ptr[p] {
        size, ptr := size[bp := size[bp] + size[ptr[p]]], ptr[bp := ptr[ptr[p]]];
      } else {
        ptr := ptr[bp := ptr[p]];
      }
      if p + size[p] == bp {
        size, ptr := size[p := size[p] + size[bp]], ptr[p := ptr[bp]];
      } else {
        ptr := ptr[p := bp];
      }
    }

    /** morecore, where `answer` is what sbrk returns: -1, or memory above all it gave before. A size that
        sbrk reads as a non-positive number gets no memory but is recorded all the same. */
    method MoreCore(nu: nat, answer: int) returns (r: Allocation)
      requires Valid() && freep != 0 && 1 <= nu <= 0x2000_0000 && (answer == -1 || answer >= brk)
      modifies this`ptr, this`size, this`freep, this`ring, this`live, this`arena, this`brk
      ensures r == if answer == -1 then NoMemory else if nu < SBRK_UNITS then Block(freep) else Fault
      ensures Valid() && live == old(live) && freep != 0
      ensures !r.Block? ==>
        ring == old(ring) && size == old(size) && ptr == old(ptr) && arena == old(arena) && freep == old(freep)
      ensures r.Block? ==> HasBlock(ring, size, nu) && arena == old(arena) + Span(answer, CoreUnits(nu))
    {
      var n := if nu < 4096 then 4096 else nu;
      SbrkArgumentExact(n);
      if answer == -1 {
        return NoMemory;
      }
      if SbrkArgument(n) <= 0 {
        return Fault;
      }
      ghost var live0 := live;
      Supply(base, freep, ring, ptr, size, live, brk, arena, answer, n, size[answer := n], live[answer := n],
             arena + Span(answer, n));
      size := size[answer := n];
      brk, live, arena := answer + n, live[answer := n], arena + Span(answer, n);
      Free(answer + 1);
      Unadd(live0, answer, n);
      return Block(freep);
    }

    /** malloc: a block of n units not in use before, from the list if it holds one that large, else from
        sbrk; the other live blocks keep their addresses and sizes. */
    method Malloc(nbytes: nat, answer: int) returns (r: Allocation)
      requires Valid() && nbytes < UINT && (answer == -1 || answer >= brk)
      modifies this`ptr, this`size, this`freep, this`ring, this`live, this`arena, this`brk
      ensures Valid() && freep != 0
      ensures Outcome(Units(nbytes), answer, old(HasBlock(ring, size, Units(nbytes))), old(arena), arena, r)
      ensures Given(old(live), live, Units(nbytes), r)
    {
      r := MallocUnits(Units(nbytes), answer);
    }

    /** malloc once the request is rounded to n units. */
    method MallocUnits(n: nat, answer: int) returns (r: Allocation)
      requires Valid() && 1 <= n <= 0x2000_0000 && (answer == -1 || answer >= brk)
      modifies this`ptr, this`size, this`freep, this`ring, this`live, this`arena, this`brk
      ensures Valid() && freep != 0
      ensures Outcome(n, answer, old(HasBlock(ring, size, n)), old(arena), arena, r)
      ensures Given(old(live), live, n, r)
    {
      Start(n);
      var prevp, p; ghost var c;
      r, prevp, p, c := Search(n, answer);
      if r.Block? {
        r := Carve(prevp, p, n, c);
      }
    }

    /** malloc's first part: the first call makes a list of base alone, which holds no units. */
    method Start(ghost n: nat)
      requires Valid() && n >= 1
      modifies this`ptr, this`size, this`freep, this`ring
      ensures Valid() && freep != 0 && (HasBlock(ring, size, n) <==> old(HasBlock(ring, size, n)))
      ensures if old(freep) == 0 then ring == [base] && size[base] == 0 else unchanged(this)
    {
      if freep == 0 {
        freep := base;
        ptr, size := ptr[base := base], size[base := 0];
        ring := [base];
        assert Lt(0, 0) == false;
      }
    }

    /** malloc's loop: round the list from freep, growing the heap at most once. */
    method Search(n: nat, answer: int) returns (r: Allocation, prevp: int, p: int, ghost c: nat)
      requires Valid() && freep != 0 && 1 <= n <= 0x2000_0000 && (answer == -1 || answer >= brk)
      modifies this`ptr, this`size, this`freep, this`ring, this`live, this`arena, this`brk
      ensures Valid() && freep != 0 && live == old(live)
      ensures Outcome(n, answer, old(HasBlock(ring, size, n)), old(arena), arena, r)
      ensures r.Block? ==> c < |ring| && p == ring[c] && size[p] >= n && prevp == Pred(ring, c)
    {
      ghost var had := HasBlock(ring, size, n);
      ghost var f, grown;
      f, c := After(ring, freep);
      grown := false;
      prevp, p := freep, ptr[freep];
      while size[p] < n
        invariant Valid() && freep != 0 && live == old(live) && Lap(ring, size, ptr, freep, prevp, p, f, c, n)
        invariant !grown ==> arena == old(arena) && brk == old(brk) && had == HasBlock(ring, size, n)
        invariant grown ==> HasBlock(ring, size, n) && Outcome(n, answer, had, old(arena), arena, Block(p))
        decreases if grown then 0 else 1, if c <= f then f - c else f - c + |ring|
      {
        if p == freep {
          FullLap(base, ring, size, ptr, freep, prevp, p, f, c, n);
          r := MoreCore(n, answer);
          if !r.Block? {
            return;
          }
          p, grown := r.addr, true;
          f, c := After(ring, freep);
        } else {
          NextInLap(base, ring, size, ptr, freep, prevp, p, f, c, n);
          c := if c + 1 < |ring| then c + 1 else 0;
        }
        prevp, p := p, ptr[p];
      }
      r := Block(p);
    }

    /** malloc's last part: all of a block of exactly n units, or the tail of a larger one. */
    method Carve(prevp: int, p: int, n: nat, ghost c: nat) returns (r: Allocation)
      requires Valid() && freep != 0 && n >= 1 && c < |ring| && p == ring[c] && size[p] >= n && prevp == Pred(ring, c)
      modifies this`ptr, this`size, this`freep, this`ring, this`live
      ensures Valid() && freep != 0 && r.Block? && Given(old(live), live, n, r)
    {
      var q := p;
      if size[p] == n {
        ring, live := TakeWhole(base, freep, ring, ptr, size, live, brk, arena, c, prevp, p, n, ptr[prevp := ptr[p]]);
        ptr := ptr[prevp := ptr[p]];
      } else {
        var rest := size[p] - n;
        q := p + rest;
        live := TakeTail(base, freep, ring, ptr, size, live, brk, arena, c, prevp, p, n, q, size[p := rest][q := n]);
        size := size[p := rest][q := n];
      }
      freep := prevp;
      return Block(q + 1);
    }
  }

  lemma LiveNotFree(base: int, ring: seq<int>, size: map<int, int>, live: map<int, int>, brk: int, bp: int)
    requires Ordered(base, ring, size) && LiveApart(base, ring, size, live, brk) && bp in live
    ensures bp !in ring
  {
    assert forall i :: 0 <= i < |ring| ==> Apart(bp, live[bp], ring[i], size[ring[i]]);
  }

  /** free's two stopping tests hold at the element after which bp belongs and at no other. */
  lemma StopsAt(base: int, ring: seq<int>, size: map<int, int>, bp: int, t: nat, c: nat)
    requires Ordered(base, ring, size) && bp !in ring && base < bp && t < |ring| && c < |ring|
    requires ring[t] < bp && (t + 1 < |ring| ==> bp < ring[t + 1])
    ensures
      (bp > ring[c] && bp < Succ(ring, c)) || (ring[c] >= Succ(ring, c) && (bp > ring[c] || bp < Succ(ring, c)))
      <==> c == t
  {
    assert Lt(c, c + 1) && Lt(0, c) == (0 < c);
    if c < t {
      assert Lt(c + 1, t) || c + 1 == t;
    } else if c > t {
      assert Lt(t + 1, c) || c == t + 1;
    }
  }

  /** The last element of the list below bp. */
  lemma PlaceOf(base: int, ring: seq<int>, size: map<int, int>, bp: int) returns (t: nat)
    requires Ordered(base, ring, size) && base < bp && bp !in ring
    ensures t < |ring| && ring[t] < bp && (t + 1 < |ring| ==> bp < ring[t + 1])
  {
    t := |ring| - 1;
    while ring[t] > bp
      decreases t
      invariant t < |ring| && (t + 1 < |ring| ==> bp < ring[t + 1])
    {
      t := t - 1;
    }
    assert ring[t] in ring;
  }
}
