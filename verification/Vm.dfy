/** vm.c over kalloc.c: two-level page tables as a flat map from pages to frames, and who owns each frame.

    A frame is a 4096-byte page of physical memory, by number; a page is a 4096-byte page of virtual
    addresses. `tables` holds the contents of frames in use as directories and tables, `data` of those
    mapped for users. The ghost field `owner` says what each frame kalloc manages is used for. */
module Vm {
  import opened Params

  const PGSIZE := 4096
  const SLOTS := 1024                // NPDENTRIES, NPTENTRIES
  const KERNBASE := 0x8000_0000
  const USER := 0x8_0000             // KERNBASE in pages
  const PTE_W := 2
  const PTE_U := 4

  /** A page table entry: the PTE_P bit, the address and the other flags. */
  datatype Pte = Pte(present: bool, frame: int, perm: int)
  const ABSENT := Pte(false, 0, 0)

  type Tables = map<int, seq<Pte>>
  type Page = seq<int>

  function Zeros(): (p: Page)
  {
    seq(PGSIZE, _ => 0)
  }

  datatype Owner = Free | Directory | Table(dir: int, slot: int) | User(dir: int, page: int) | Kernel
  type Owners = map<int, Owner>

  function Entry(tables: Tables, t: int, i: int): (e: Pte)
  {
    if t in tables && 0 <= i < |tables[t]| then tables[t][i] else ABSENT
  }

  /** What directory d maps page v to: the flat map the two levels implement. */
  function Lookup(tables: Tables, d: int, v: int): (e: Pte)
  {
    var pde := Entry(tables, d, v / SLOTS);
    if pde.present then Entry(tables, pde.frame, v % SLOTS) else ABSENT
  }

  predicate IsDir(owner: Owners, d: int)
  {
    d > 0 && d in owner && owner[d] == Directory
  }

  predicate IsTable(tables: Tables, t: int)
  {
    t in tables && |tables[t]| == SLOTS
  }

  /** Frame f is used as owner says. */
  ghost predicate Used(free: seq<int>, tables: Tables, data: map<int, Page>, owner: Owners, dead: int, k: int, f: int)
    requires f in owner
  {
    match owner[f]
    case Free => f in free
    case Directory => f > 0 && IsTable(tables, f)
    case Table(d, i) =>
      && IsTable(tables, f) && IsDir(owner, d) && 0 <= i < SLOTS && !(d == dead && i < k)
      && Entry(tables, d, i).present && Entry(tables, d, i).frame == f
    case User(d, v) => f in data && IsDir(owner, d) && d != dead && 0 <= v < USER && Lookup(tables, d, v).present
      && Lookup(tables, d, v).frame == f
    case Kernel => true
  }

  ghost predicate FreeList(free: seq<int>, owner: Owners)
  {
    && (forall i :: 0 <= i < |free| ==> free[i] in owner && owner[free[i]] == Free)
    && (forall i, j :: 0 <= i < j < |free| ==> free[i] != free[j])
  }

  /** Every present directory entry owns its table, but those of dead below slot k. */
  ghost predicate OwnsTables(tables: Tables, owner: Owners, dead: int, k: int)
  {
    forall d, i {:trigger Entry(tables, d, i)} ::
      IsDir(owner, d) && 0 <= i < SLOTS && !(d == dead && i < k) && Entry(tables, d, i).present ==>
      Entry(tables, d, i).frame in owner && owner[Entry(tables, d, i).frame] == Table(d, i)
  }

  /** Every user mapping owns its frame. */
  ghost predicate OwnsPages(tables: Tables, owner: Owners, dead: int)
  {
    forall d, v {:trigger Lookup(tables, d, v)} ::
      IsDir(owner, d) && 0 <= v < USER && d != dead && Lookup(tables, d, v).present ==>
      Lookup(tables, d, v).frame in owner && owner[Lookup(tables, d, v).frame] == User(d, v)
  }

  /** Each frame has one owner, and the free list, directories, tables and mappings are what owner says.
      While freevm takes directory `dead` apart, its slots below k are excepted. */
  ghost predicate Owned(free: seq<int>, tables: Tables, data: map<int, Page>, owner: Owners, dead: int, k: int)
  {
    && (forall f {:trigger Used(free, tables, data, owner, dead, k, f)} :: f in owner ==>
        Used(free, tables, data, owner, dead, k, f))
    && FreeList(free, owner) && OwnsTables(tables, owner, dead, k) && OwnsPages(tables, owner, dead)
  }

  ghost predicate SameMaps(tables: Tables, tables': Tables, owner: Owners)
  {
    forall d, v {:trigger Lookup(tables', d, v)} :: IsDir(owner, d) ==> Lookup(tables', d, v) == Lookup(tables, d, v)
  }

  // Steps.

  /** Directory d gets an empty table for slot i: no page is mapped or unmapped. */
  lemma AddTable(free: seq<int>, tables: Tables, data: map<int, Page>, owner: Owners, d: int, i: int, perm: int,
                 free': seq<int>, tables': Tables, owner': Owners, t: int)
    requires Owned(free, tables, data, owner, -1, 0) && IsDir(owner, d) && 0 <= i < SLOTS
    requires !Entry(tables, d, i).present
    requires |free| > 0 && t == free[0] && free' == free[1..] && owner' == owner[t := Table(d, i)]
    requires IsTable(tables, d)
    requires tables' == tables[t := seq(SLOTS, _ => ABSENT)][d := tables[d][i := Pte(true, t, perm)]]
    ensures Owned(free', tables', data, owner', -1, 0) && SameMaps(tables, tables', owner')
  {
    assert owner[t] == Free && t != d;
    assert free == [t] + free';
    forall d', j {:trigger Entry(tables', d', j)} | IsDir(owner', d')
      ensures Entry(tables', d', j) == if d' == d && j == i then Pte(true, t, perm) else Entry(tables, d', j)
    {
    }
    forall d', v {:trigger Lookup(tables', d', v)} | IsDir(owner', d')
      ensures Lookup(tables', d', v) == Lookup(tables, d', v)
    {
      var pde := Entry(tables, d', v / SLOTS);
      assert pde.present ==> 0 <= v / SLOTS < SLOTS by {
        assert Used(free, tables, data, owner, -1, 0, d');
      }
    }
    forall f | f in owner'
      ensures Used(free', tables', data, owner', -1, 0, f)
    {
      if f != t {
        assert Used(free, tables, data, owner, -1, 0, f);
      }
    }
  }

  /** Writing the entry for page v of d changes what d maps v to, and nothing else in any directory. */
  lemma WriteEntry(free: seq<int>, tables: Tables, data: map<int, Page>, owner: Owners, d: int, v: int, t: int,
                   pte: Pte, tables': Tables)
    requires Owned(free, tables, data, owner, -1, 0) && IsDir(owner, d)
    requires Entry(tables, d, v / SLOTS).present && Entry(tables, d, v / SLOTS).frame == t
    requires IsTable(tables, t) && tables' == tables[t := tables[t][v % SLOTS := pte]]
    ensures forall d', j {:trigger Entry(tables', d', j)} :: IsDir(owner, d') ==>
      Entry(tables', d', j) == Entry(tables, d', j)
    ensures forall d', w {:trigger Lookup(tables', d', w)} :: IsDir(owner, d') ==>
      Lookup(tables', d', w) == if d' == d && w == v then pte else Lookup(tables, d', w)
  {
    assert Used(free, tables, data, owner, -1, 0, d);
    assert owner[t] == Table(d, v / SLOTS);
    forall d', w {:trigger Lookup(tables', d', w)} | IsDir(owner, d')
      ensures Lookup(tables', d', w) == if d' == d && w == v then pte else Lookup(tables, d', w)
    {
      assert Used(free, tables, data, owner, -1, 0, d');
      var pde := Entry(tables, d', w / SLOTS);
      if pde.present && pde.frame == t {
        assert owner[t] == Table(d', w / SLOTS);
        assert w % SLOTS == v % SLOTS ==> w == v;
      }
    }
  }

  /** A frame the kernel holds is mapped at user page v, which owns it from then on. */
  lemma MapUser(free: seq<int>, tables: Tables, data: map<int, Page>, owner: Owners, d: int, v: int, t: int, f: int,
                perm: int, tables': Tables, owner': Owners)
    requires Owned(free, tables, data, owner, -1, 0) && IsDir(owner, d) && 0 <= v < USER
    requires !Lookup(tables, d, v).present
    requires Entry(tables, d, v / SLOTS).present && Entry(tables, d, v / SLOTS).frame == t
    requires IsTable(tables, t) && tables' == tables[t := tables[t][v % SLOTS := Pte(true, f, perm)]]
    requires f in owner && owner[f] == Kernel && f in data && owner' == owner[f := User(d, v)]
    ensures Owned(free, tables', data, owner', -1, 0)
  {
    WriteEntry(free, tables, data, owner, d, v, t, Pte(true, f, perm), tables');
    forall g | g in owner'
      ensures Used(free, tables', data, owner', -1, 0, g)
    {
      assert Used(free, tables, data, owner, -1, 0, g);
    }
  }

  /** A mapping above KERNBASE owns nothing. */
  lemma MapKernel(free: seq<int>, tables: Tables, data: map<int, Page>, owner: Owners, d: int, v: int, t: int, pte: Pte,
                  tables': Tables)
    requires Owned(free, tables, data, owner, -1, 0) && IsDir(owner, d) && USER <= v
    requires Entry(tables, d, v / SLOTS).present && Entry(tables, d, v / SLOTS).frame == t
    requires IsTable(tables, t) && tables' == tables[t := tables[t][v % SLOTS := pte]]
    ensures Owned(free, tables', data, owner, -1, 0)
  {
    WriteEntry(free, tables, data, owner, d, v, t, pte, tables');
    forall g | g in owner
      ensures Used(free, tables', data, owner, -1, 0, g)
    {
      assert Used(free, tables, data, owner, -1, 0, g);
    }
  }

  lemma MapAny(free: seq<int>, tables: Tables, data: map<int, Page>, owner: Owners, d: int, v: int, t: int, f: int,
               perm: int, tables': Tables, owner': Owners)
    requires Owned(free, tables, data, owner, -1, 0) && IsDir(owner, d) && 0 <= v && !Lookup(tables, d, v).present
    requires Entry(tables, d, v / SLOTS).present && Entry(tables, d, v / SLOTS).frame == t
    requires IsTable(tables, t) && tables' == tables[t := tables[t][v % SLOTS := Pte(true, f, perm)]]
    requires v < USER ==> f in owner && owner[f] == Kernel && f in data
    requires owner' == if v < USER then owner[f := User(d, v)] else owner
    ensures Owned(free, tables', data, owner', -1, 0) && Maps(tables, tables', owner', d, v, v + 1, f, perm)
    ensures MapOwner(owner, owner', d, v, v + 1, f)
  {
    WriteEntry(free, tables, data, owner, d, v, t, Pte(true, f, perm), tables');
    if v < USER {
      MapUser(free, tables, data, owner, d, v, t, f, perm, tables', owner');
    } else {
      MapKernel(free, tables, data, owner, d, v, t, Pte(true, f, perm), tables');
    }
  }

  /** A table for page v, new or not, and then the page mapped. */
  lemma WalkThenMap(free: seq<int>, tables: Tables, owner: Owners, free1: seq<int>, tables1: Tables, owner1: Owners,
                    tables2: Tables, owner2: Owners, d: int, v: int, f: int, perm: int)
    requires 0 <= v && SameMaps(tables, tables1, owner1) && MapOwner(owner, owner1, d, 0, 0, 0)
    requires if Entry(tables, d, v / SLOTS).present then free1 == free else |free| == |free1| + 1
    requires Maps(tables1, tables2, owner2, d, v, v + 1, f, perm) && MapOwner(owner1, owner2, d, v, v + 1, f)
    requires Entry(tables2, d, v / SLOTS).present && (v < USER ==> f in owner && owner[f] == Kernel)
    requires forall d' :: IsDir(owner2, d') ==> IsDir(owner1, d')
    ensures Extends(free, tables, owner, free1, tables2, owner2, d, v, v + 1, f, perm)
  {
    assert NewTables(Entry(tables, d, v / SLOTS).present, v, v + 1) ==
      if Entry(tables, d, v / SLOTS).present then 0 else 1;
  }

  /** User page v is unmapped and its frame freed. */
  lemma Unmap(free: seq<int>, tables: Tables, data: map<int, Page>, owner: Owners, d: int, v: int, t: int, f: int,
              tables': Tables, owner': Owners)
    requires Owned(free, tables, data, owner, -1, 0) && IsDir(owner, d) && 0 <= v < USER && Lookup(tables, d, v).present
    requires Entry(tables, d, v / SLOTS).present && Entry(tables, d, v / SLOTS).frame == t && IsTable(tables, t)
    requires f == Lookup(tables, d, v).frame && f != t && tables' == (tables - {f})[t := tables[t][v % SLOTS := ABSENT]]
    requires owner' == owner[f := Free]
    ensures Owned([f] + free, tables', data - {f}, owner', -1, 0)
    ensures forall d', w {:trigger Lookup(tables', d', w)} :: IsDir(owner', d') ==>
      Lookup(tables', d', w) == if d' == d && w == v then ABSENT else Lookup(tables, d', w)
  {
    var tables1 := tables[t := tables[t][v % SLOTS := ABSENT]];
    WriteEntry(free, tables, data, owner, d, v, t, ABSENT, tables1);
    assert f in owner && owner[f] == User(d, v);
    forall d', j {:trigger Entry(tables', d', j)} | IsDir(owner', d')
      ensures Entry(tables', d', j) == Entry(tables, d', j)
    {
      assert Entry(tables1, d', j) == Entry(tables, d', j);
    }
    forall d', w {:trigger Lookup(tables', d', w)} | IsDir(owner', d')
      ensures Lookup(tables', d', w) == Lookup(tables1, d', w)
    {
      assert Used(free, tables, data, owner, -1, 0, d');
    }
    forall g | g in owner'
      ensures Used([f] + free, tables', data - {f}, owner', -1, 0, g)
    {
      assert Used(free, tables, data, owner, -1, 0, g);
    }
  }

  // Ownership before and after.

  /** The frames d's pages lo..hi owned are free. */
  ghost function UnmapOwner(owner: Owners, d: int, lo: int, hi: int): (owner': Owners)
  {
    map f | f in owner :: if owner[f].User? && owner[f].dir == d && lo <= owner[f].page < hi then Free else owner[f]
  }

  /** Some free frames became tables of d, and the frames from pa those of d's user pages first..stop. */
  ghost predicate MapOwner(owner: Owners, owner': Owners, d: int, first: int, stop: int, pa: int)
  {
    && (forall f :: f in owner' <==> f in owner)
    && forall f :: f in owner ==>
      if pa <= f && first + (f - pa) < stop && first + (f - pa) < USER then owner'[f] == User(d, first + (f - pa))
      else owner'[f] == owner[f] || (owner[f] == Free && owner'[f].Table? && owner'[f].dir == d)
  }

  /** d maps pages first..stop to the frames from pa; all else is mapped as before. */
  ghost predicate Maps(tables: Tables, tables': Tables, owner: Owners, d: int, first: int, stop: int, pa: int,
                       perm: int)
  {
    forall d', v {:trigger Lookup(tables', d', v)} :: IsDir(owner, d') ==>
      Lookup(tables', d', v) ==
        if d' == d && first <= v < stop then Pte(true, pa + (v - first), perm) else Lookup(tables, d', v)
  }

  /** What mappages does to page tables and frames when it has mapped pages first..stop. */
  ghost predicate Extends(free: seq<int>, tables: Tables, owner: Owners, free': seq<int>, tables': Tables,
                          owner': Owners, d: int, first: int, stop: int, pa: int, perm: int)
  {
    && Maps(tables, tables', owner', d, first, stop, pa, perm) && MapOwner(owner, owner', d, first, stop, pa)
    && |free| <= |free'| + NewTables(Entry(tables, d, first / SLOTS).present, first, stop)
    && if stop == first then tables' == tables && owner' == owner else Entry(tables', d, (stop - 1) / SLOTS).present
  }

  /** d maps no page of lo..hi; all else is mapped as before. */
  ghost predicate Unmaps(tables: Tables, tables': Tables, owner: Owners, d: int, lo: int, hi: int)
  {
    forall d', v {:trigger Lookup(tables', d', v)} :: IsDir(owner, d') ==>
      if d' == d && lo <= v < hi then !Lookup(tables', d', v).present
        else Lookup(tables', d', v) == Lookup(tables, d', v)
  }

  /** What deallocuvm does for pages lo..hi of d. */
  ghost predicate Unmapped(tables: Tables, data: map<int, Page>, owner: Owners, tables': Tables, data': map<int, Page>,
                           owner': Owners, d: int, lo: int, hi: int)
  {
    && Unmaps(tables, tables', owner', d, lo, hi) && owner' == UnmapOwner(owner, d, lo, hi)
    && KeepsData(data, data', owner')
  }

  /** The pages users have now hold what they held. */
  ghost predicate KeepsData(data: map<int, Page>, data': map<int, Page>, owner': Owners)
  {
    forall f :: f in owner' && owner'[f].User? && f in data ==> f in data' && data'[f] == data[f]
  }

  function Min(a: int, b: int): (m: int)
  {
    if a < b then a else b
  }

  /** A page mapped for a user to a zeroed frame that was free. */
  predicate NewPage(owner: Owners, data': map<int, Page>, e: Pte)
  {
    && e.present && e.perm == PTE_W + PTE_U && e.frame in owner && owner[e.frame] == Free
    && e.frame in data' && data'[e.frame] == Zeros()
  }

  /** d maps pages lo..hi to new pages; all else is mapped as before. */
  ghost predicate Fills(tables: Tables, owner: Owners, tables': Tables, data': map<int, Page>, owner': Owners, d: int,
                        lo: int, hi: int)
  {
    forall d', v {:trigger Lookup(tables', d', v)} :: IsDir(owner', d') ==>
      if d' == d && lo <= v < hi then NewPage(owner, data', Lookup(tables', d', v))
        else Lookup(tables', d', v) == Lookup(tables, d', v)
  }

  ghost predicate NoneMapped(tables: Tables, d: int, lo: int, hi: int)
  {
    forall v {:trigger Lookup(tables, d, v)} :: lo <= v < hi ==> !Lookup(tables, d, v).present
  }

  /** Every page is mapped as before, or not mapped as before. */
  ghost predicate SameUse(tables: Tables, tables': Tables, owner': Owners)
  {
    forall d, v {:trigger Lookup(tables', d, v)} :: IsDir(owner', d) ==>
      if Lookup(tables, d, v).present then Lookup(tables', d, v) == Lookup(tables, d, v)
        else !Lookup(tables', d, v).present
  }

  /** Free frames became tables of d or d's pages lo..hi; no other frame changed hands. */
  ghost predicate Grew(owner: Owners, owner': Owners, d: int, lo: int, hi: int)
  {
    && (forall f :: f in owner' <==> f in owner)
    && forall f :: f in owner ==>
       owner'[f] == owner[f] || (owner[f] == Free && TableOf(owner'[f], d))
       || (owner[f] == Free && PageOf(owner'[f], d, lo, hi))
  }

  predicate TableOf(o: Owner, d: int)
  {
    o.Table? && o.dir == d
  }

  predicate PageOf(o: Owner, d: int, lo: int, hi: int)
  {
    o.User? && o.dir == d && lo <= o.page < hi
  }

  /** Frames that pages lo..hi of d can need. */
  ghost function Needed(tables: Tables, d: int, lo: int, hi: int): (n: int)
  {
    hi - lo + NewTables(Entry(tables, d, lo / SLOTS).present, lo, hi)
  }

  /** What allocuvm does for pages lo..hi of d. */
  ghost predicate Allocated(free: seq<int>, tables: Tables, data: map<int, Page>, owner: Owners, free': seq<int>,
                            tables': Tables, data': map<int, Page>, owner': Owners, d: int, lo: int, hi: int)
  {
    && Fills(tables, owner, tables', data', owner', d, lo, hi) && Grew(owner, owner', d, lo, hi)
    && KeepsData(data, data', owner)
    && |free| <= |free'| + Needed(tables, d, lo, hi)
    && if lo >= hi then tables' == tables else Entry(tables', d, (hi - 1) / SLOTS).present
  }

  /** Every mapping and every user's data as before; the only frames not returned are empty tables of d. */
  ghost predicate Restored(tables: Tables, data: map<int, Page>, owner: Owners, tables': Tables, data': map<int, Page>,
                           owner': Owners, d: int)
  {
    && SameUse(tables, tables', owner') && Grew(owner, owner', d, 0, 0) && KeepsData(data, data', owner)
  }

  /** How many tables pages lo..hi can need, if the first one's table is there already or not. */
  function NewTables(present: bool, lo: int, hi: int): (n: int)
  {
    if lo >= hi then 0 else (hi - 1) / SLOTS - lo / SLOTS + if present then 0 else 1
  }

  /** The page of the last byte of va..va+size. */
  function LastPage(va: int, size: int): (v: int)
  {
    (va + size - 1) / PGSIZE
  }

  /** The kernel holds the frames from pa meant for user pages first..last. */
  ghost predicate Held(data: map<int, Page>, owner: Owners, first: int, last: int, pa: int)
  {
    forall f :: pa <= f <= pa + (last - first) && first + (f - pa) < USER ==>
      f in owner && owner[f] == Kernel && f in data
  }

  function RoundUp(sz: int): (v: int)
  {
    (sz + PGSIZE - 1) / PGSIZE
  }

  datatype MapResult = Mapped | NoMemory | Remap

  class Memory {
    const lo: int
    const hi: int
    var free: seq<int>
    var tables: Tables
    var data: map<int, Page>
    ghost var owner: Owners

    ghost predicate Valid()
      reads this
    {
      && 0 < lo && (forall f :: f in owner <==> lo <= f < hi)
      && Owned(free, tables, data, owner, -1, 0)
    }

    /** freerange over the frames lo..hi: all free. */
    constructor (lo: int, hi: int)
      requires 0 < lo <= hi
      ensures Valid() && this.lo == lo && this.hi == hi && forall f :: f in owner ==> owner[f] == Free
    {
      this.lo, this.hi := lo, hi;
      free, tables, data := [], map[], map[];
      owner := map[];
      new;
      var p := lo;
      while p < hi
        invariant lo <= p <= hi && (forall f :: f in owner <==> lo <= f < p)
        invariant forall f :: f in owner ==> owner[f] == Free
        invariant |free| == p - lo && forall i :: 0 <= i < |free| ==> free[i] == p - 1 - i
      {
        Kfree(p);
        owner := owner[p := Free];
        p := p + 1;
      }
      forall f | f in owner
        ensures Used(free, tables, data, owner, -1, 0, f)
      {
        assert free[hi - 1 - f] == f;
      }
    }

    /** kalloc: 0 if there is none. */
    method Kalloc() returns (f: int)
      requires Valid()
      modifies this`free
      ensures f == 0 ==> free == old(free) == []
      ensures f != 0 ==> f in owner && old(free) == [f] + free
    {
      if free == [] {
        return 0;
      }
      f := free[0];
      assert f in owner;
      free := free[1..];
    }

    /** kfree, which fills the page with junk. */
    method Kfree(f: int)
      requires lo <= f < hi
      modifies this`free, this`tables, this`data
      ensures free == [f] + old(free) && tables == old(tables) - {f} && data == old(data) - {f}
    {
      tables, data := tables - {f}, data - {f};
      free := [f] + free;
    }

    /** kfree of a frame the kernel holds: it is free again, and no mapping changes. */
    method GiveBack(f: int)
      requires Valid() && f in owner && owner[f] == Kernel
      modifies this`free, this`tables, this`data, this`owner
      ensures Valid() && owner == old(owner)[f := Free] && free == [f] + old(free)
      ensures SameMaps(old(tables), tables, owner) && data == old(data) - {f}
    {
      ReleaseKernel(free, tables, data, owner, f, [f] + free, tables - {f}, data - {f}, owner[f := Free]);
      Kfree(f);
      owner := owner[f := Free];
    }

    /** walkpgdir: the table with the entry for page v, 0 if there is none. */
    method Walk(d: int, v: int, alloc: bool) returns (t: int)
      requires Valid() && IsDir(owner, d) && 0 <= v < 0x10_0000
      modifies this`free, this`tables, this`owner
      ensures Valid() && IsDir(owner, d) && SameMaps(old(tables), tables, owner)
      ensures MapOwner(old(owner), owner, d, 0, 0, 0)
      ensures if t == 0 || !alloc || Entry(old(tables), d, v / SLOTS).present
              then tables == old(tables) && owner == old(owner) && free == old(free)
              else |old(free)| == |free| + 1
      ensures t == 0 ==> !Entry(tables, d, v / SLOTS).present && (alloc ==> free == [])
      ensures t != 0 ==>
        IsTable(tables, t) && Entry(tables, d, v / SLOTS).present && Entry(tables, d, v / SLOTS).frame == t
    {
      assert Used(free, tables, data, owner, -1, 0, d);
      var i := v / SLOTS;
      if tables[d][i].present {
        t := tables[d][i].frame;
        assert owner[Entry(tables, d, i).frame] == Table(d, i);
        assert Used(free, tables, data, owner, -1, 0, t);
        return;
      }
      if !alloc {
        return 0;
      }
      t := Kalloc();
      if t == 0 {
        return 0;
      }
      ghost var owner' := owner[t := Table(d, i)];
      AddTable(old(free), tables, data, owner, d, i, PTE_W + PTE_U, free,
               tables[t := seq(SLOTS, _ => ABSENT)][d := tables[d][i := Pte(true, t, PTE_W + PTE_U)]], owner', t);
      tables := tables[t := seq(SLOTS, _ => ABSENT)];
      tables := tables[d := tables[d][i := Pte(true, t, PTE_W + PTE_U)]];
      owner := owner';
    }

    /** One round of mappages: page v to frame f. */
    method MapOne(d: int, v: int, f: int, perm: int) returns (r: MapResult)
      requires Valid() && IsDir(owner, d) && 0 <= v < 0x10_0000
      requires v < USER ==> f in owner && owner[f] == Kernel && f in data
      modifies this`free, this`tables, this`owner
      ensures Valid() && IsDir(owner, d)
      ensures Extends(old(free), old(tables), old(owner), free, tables, owner, d, v,
                      if r.Mapped? then v + 1 else v, f, perm)
      ensures match r
        case Mapped => !Lookup(old(tables), d, v).present
        case Remap => Lookup(old(tables), d, v).present
        case NoMemory => free == [] && !Entry(tables, d, v / SLOTS).present && !Lookup(old(tables), d, v).present
    {
      var t := Walk(d, v, true);
      if t == 0 {
        assert !Lookup(tables, d, v).present;
        return NoMemory;
      }
      assert Lookup(tables, d, v) == Entry(tables, t, v % SLOTS) == tables[t][v % SLOTS];
      if tables[t][v % SLOTS].present {
        return Remap;
      }
      ghost var tables1, owner1 := tables, owner;
      owner := if v < USER then owner[f := User(d, v)] else owner;
      tables := tables[t := tables[t][v % SLOTS := Pte(true, f, perm)]];
      MapAny(free, tables1, data, owner1, d, v, t, f, perm, tables, owner);
      WalkThenMap(old(free), old(tables), old(owner), free, tables1, owner1, tables, owner, d, v, f, perm);
      return Mapped;
    }

    /** mappages: the pages of va..va+size to frames from pa, as far as page `stop`. */
    method MapPages(d: int, va: int, size: int, pa: int, perm: int) returns (r: MapResult, ghost stop: int)
      requires Valid() && IsDir(owner, d) && 0 <= va && 1 <= size && va + size <= UINT
      requires Held(data, owner, va / PGSIZE, LastPage(va, size), pa)
      modifies this`free, this`tables, this`owner
      ensures Valid() && IsDir(owner, d)
      ensures Extends(old(free), old(tables), old(owner), free, tables, owner, d, va / PGSIZE, stop, pa, perm)
      ensures if r.Mapped? then stop == LastPage(va, size) + 1 else va / PGSIZE <= stop <= LastPage(va, size)
      ensures r.Remap? ==> Lookup(old(tables), d, stop).present
      ensures r.NoMemory? ==> free == [] && !Entry(tables, d, stop / SLOTS).present
    {
      r, stop := MapRange(d, va / PGSIZE, LastPage(va, size), pa, perm);
    }

    /** mappages' loop, from page `first` to page `last`. */
    method MapRange(d: int, first: int, last: int, pa: int, perm: int) returns (r: MapResult, ghost stop: int)
      requires Valid() && IsDir(owner, d) && 0 <= first <= last < 0x10_0000 && Held(data, owner, first, last, pa)
      modifies this`free, this`tables, this`owner
      ensures Valid() && IsDir(owner, d)
      ensures Extends(old(free), old(tables), old(owner), free, tables, owner, d, first, stop, pa, perm)
      ensures if r.Mapped? then stop == last + 1 else first <= stop <= last
      ensures r.Remap? ==> Lookup(old(tables), d, stop).present
      ensures r.NoMemory? ==> free == [] && !Entry(tables, d, stop / SLOTS).present
    {
      var a, f := first, pa;
      while true
        invariant Valid() && IsDir(owner, d) && first <= a <= last && f == pa + (a - first)
        invariant Extends(old(free), old(tables), old(owner), free, tables, owner, d, first, a, pa, perm)
        decreases last - a
      {
        r, stop := MapNext(d, first, last, pa, perm, a, f, old(free), old(tables), old(owner));
        if !r.Mapped? || a == last {
          return;
        }
        a, f := a + 1, f + 1;
      }
    }

    /** A round of it: page a, with those from `first` up to it mapped since free0, tables0, owner0. */
    method MapNext(d: int, first: int, last: int, pa: int, perm: int, a: int, f: int, ghost free0: seq<int>,
                   ghost tables0: Tables, ghost owner0: Owners) returns (r: MapResult, ghost stop: int)
      requires Valid() && IsDir(owner, d) && 0 <= first <= a <= last < 0x10_0000 && f == pa + (a - first)
      requires Extends(free0, tables0, owner0, free, tables, owner, d, first, a, pa, perm)
      requires Held(data, owner0, first, last, pa)
      modifies this`free, this`tables, this`owner
      ensures Valid() && IsDir(owner, d) && stop == if r.Mapped? then a + 1 else a
      ensures Extends(free0, tables0, owner0, free, tables, owner, d, first, stop, pa, perm)
      ensures r.Remap? ==> Lookup(tables0, d, a).present
      ensures r.NoMemory? ==> free == [] && !Entry(tables, d, a / SLOTS).present
    {
      ghost var free1, tables1, owner1 := free, tables, owner;
      NextFrame(tables0, tables, owner0, owner, d, first, last, pa, perm, a, f, data);
      r := MapOne(d, a, f, perm);
      stop := if r.Mapped? then a + 1 else a;
      ExtendsOne(free0, tables0, owner0, free1, tables1, owner1, free, tables, owner, d, first, pa, perm, a, f, stop);
    }

    /** deallocuvm: pages are unmapped and their frames freed from newsz up to oldsz, skipping missing tables. */
    method DeallocUvm(d: int, oldsz: int, newsz: int) returns (sz: int)
      requires Valid() && IsDir(owner, d) && 0 <= newsz && oldsz <= KERNBASE
      modifies this`free, this`tables, this`data, this`owner
      ensures Valid() && IsDir(owner, d) && sz == if newsz >= oldsz then oldsz else newsz
      ensures Unmapped(old(tables), old(data), old(owner), tables, data, owner, d, RoundUp(newsz), RoundUp(oldsz))
    {
      if newsz >= oldsz {
        UnmappedNone(tables, data, owner, d, RoundUp(newsz), RoundUp(oldsz));
        return oldsz;
      }
      var a := RoundUp(newsz);
      ghost var lo, hi := RoundUp(newsz), RoundUp(oldsz);
      UnmappedNone(tables, data, owner, d, a, a);
      while a * PGSIZE < oldsz
        invariant Valid() && IsDir(owner, d) && lo <= a
        invariant Unmapped(old(tables), old(data), old(owner), tables, data, owner, d, lo, Min(a, hi))
      {
        ghost var tables0, data0, owner0, a0 := tables, data, owner, a;
        a := DropPage(d, a, hi);
        UnmappedBoth(old(tables), old(data), old(owner), tables0, data0, owner0, tables, data, owner, d, lo, a0,
                     Min(a, hi));
      }
      return newsz;
    }

    /** One round of deallocuvm's loop, at page a; `next` is where the next round is. */
    method DropPage(d: int, a: int, ghost hi: int) returns (next: int)
      requires Valid() && IsDir(owner, d) && 0 <= a < hi <= USER
      modifies this`free, this`tables, this`data, this`owner
      ensures Valid() && IsDir(owner, d) && a < next
      ensures Unmapped(old(tables), old(data), old(owner), tables, data, owner, d, a, Min(next, hi))
    {
      var t := Walk(d, a, false);
      next := a;
      if t == 0 {
        next := (a / SLOTS + 1) * SLOTS - 1;
        UnmappedAbsent(free, tables, data, owner, d, a, Min(next + 1, hi));
      } else if tables[t][a % SLOTS].present {
        var f := tables[t][a % SLOTS].frame;
        UnmappedOne(free, tables, data, owner, d, a, t, f, (tables - {f})[t := tables[t][a % SLOTS := ABSENT]],
                    owner[f := Free]);
        Kfree(f);
        tables := tables[t := tables[t][a % SLOTS := ABSENT]];
        owner := owner[f := Free];
      } else {
        UnmappedAbsent(free, tables, data, owner, d, a, a + 1);
      }
      next := next + 1;
    }

    /** allocuvm: zeroed frames for the pages from oldsz up to newsz; if memory runs out, the mappings and
        the data frames are as they were. `panic` is mappages' panic at a page that is mapped already. */
    method AllocUvm(d: int, oldsz: int, newsz: int) returns (sz: int, panic: bool)
      requires Valid() && IsDir(owner, d) && 0 <= oldsz && 0 <= newsz
      modifies this`free, this`tables, this`data, this`owner
      ensures Valid() && IsDir(owner, d)
      ensures panic ==> oldsz <= newsz < KERNBASE && !NoneMapped(old(tables), d, RoundUp(oldsz), RoundUp(newsz))
      ensures newsz >= KERNBASE || newsz < oldsz ==> unchanged(this) && sz == if newsz >= KERNBASE then 0 else oldsz
      ensures oldsz <= newsz < KERNBASE && !panic && sz != 0 ==>
        sz == newsz && Allocated(old(free), old(tables), old(data), old(owner), free, tables, data, owner, d,
                                 RoundUp(oldsz), RoundUp(newsz))
      ensures oldsz <= newsz < KERNBASE && !panic && sz == 0 && newsz > 0 ==>
        && (NoneMapped(old(tables), d, RoundUp(oldsz), RoundUp(newsz)) ==>
            Restored(old(tables), old(data), old(owner), tables, data, owner, d))
        && |old(free)| < Needed(old(tables), d, RoundUp(oldsz), RoundUp(newsz))
    {
      if newsz >= KERNBASE {
        return 0, false;
      }
      if newsz < oldsz {
        return oldsz, false;
      }
      ghost var lo, hi := RoundUp(oldsz), RoundUp(newsz);
      var a := RoundUp(oldsz);
      while a * PGSIZE < newsz
        invariant Valid() && IsDir(owner, d) && lo <= a && (a <= hi || a == lo)
        invariant Allocated(old(free), old(tables), old(data), old(owner), free, tables, data, owner, d, lo, a)
      {
        ghost var free0, tables0, data0, owner0 := free, tables, data, owner;
        assert Lookup(tables, d, a) == Lookup(old(tables), d, a);
        var mem, r := PlacePage(d, a, Zeros(), PTE_W + PTE_U);
        if r.Remap? {
          return 0, true;
        }
        if r.NoMemory? {
          RollBack(d, oldsz, newsz, mem, old(free), old(tables), old(data), old(owner), free0, tables0, data0, owner0,
                   a);
          return 0, false;
        }
        AllocatedOne(old(free), old(tables), old(data), old(owner), free0, tables0, data0, owner0, free0[1..],
                     owner0[mem := Kernel], mem, free, tables, data, owner, d, lo, a, a + 1);
        a := a + 1;
      }
      return newsz, false;
    }

    /** allocuvm's way out when memory is short at page a. */
    method RollBack(d: int, oldsz: int, newsz: int, mem: int, ghost free0: seq<int>, ghost tables0: Tables,
                    ghost data0: map<int, Page>, ghost owner0: Owners, ghost free1: seq<int>, ghost tables1: Tables,
                    ghost data1: map<int, Page>, ghost owner1: Owners, ghost a: int)
      requires Valid() && IsDir(owner, d) && 0 <= RoundUp(oldsz) <= a < RoundUp(newsz) && 0 <= oldsz && newsz < KERNBASE
      requires Owned(free0, tables0, data0, owner0, -1, 0)
      requires Allocated(free0, tables0, data0, owner0, free1, tables1, data1, owner1, d, RoundUp(oldsz), a)
      requires tables == tables1
      requires if mem == 0 then owner == owner1 && data == data1 && free1 == []
               else mem in owner1 && owner1[mem] == Free && owner == owner1[mem := Kernel] &&
                    data == data1[mem := Zeros()] && |free1| == 1
      requires mem != 0 ==> !Entry(tables, d, a / SLOTS).present
      modifies this`free, this`tables, this`data, this`owner
      ensures Valid() && IsDir(owner, d)
      ensures NoneMapped(tables0, d, RoundUp(oldsz), RoundUp(newsz)) ==>
        Restored(tables0, data0, owner0, tables, data, owner, d)
      ensures |free0| < Needed(tables0, d, RoundUp(oldsz), RoundUp(newsz))
    {
      var sz := DeallocUvm(d, newsz, oldsz);
      if NoneMapped(tables0, d, RoundUp(oldsz), RoundUp(newsz)) {
        Undone(free0, tables0, data0, owner0, free1, tables1, data1, owner1, mem, old(data), old(owner), tables, data,
               owner, d, RoundUp(oldsz), a, RoundUp(newsz));
      }
      ShortOf(free0, tables0, data0, owner0, free1, tables1, data1, owner1, d, RoundUp(oldsz), a, RoundUp(newsz), mem);
      if mem != 0 {
        ghost var tables3, data3, owner3 := tables, data, owner;
        GiveBack(mem);
        if NoneMapped(tables0, d, RoundUp(oldsz), RoundUp(newsz)) {
          RestoredAfter(tables0, data0, owner0, tables3, data3, owner3, tables, data, owner, d, mem);
        }
      }
    }

    /** A frame `mem` with the given contents for page a, 0 if there is none; r says whether it is mapped.
        The part allocuvm's and copyuvm's loops share. */
    method PlacePage(d: int, a: int, contents: Page, perm: int) returns (mem: int, r: MapResult)
      requires Valid() && IsDir(owner, d) && 0 <= a < USER
      modifies this`free, this`tables, this`data, this`owner
      ensures Valid() && IsDir(owner, d)
      ensures mem == 0 ==> r.NoMemory? && old(free) == [] && unchanged(this)
      ensures mem != 0 ==>
        old(free) != [] && mem == old(free)[0] && mem in old(owner) && old(owner)[mem] == Free
        && data == old(data)[mem := contents]
      ensures r.Remap? ==> Lookup(old(tables), d, a).present
      ensures r.Mapped? ==>
        Extends(old(free)[1..], old(tables), old(owner)[mem := Kernel], free, tables, owner, d, a, a + 1, mem, perm)
      ensures r.NoMemory? && mem != 0 ==>
        tables == old(tables) && free == [] && |old(free)| == 1 && owner == old(owner)[mem := Kernel]
          && !Entry(tables, d, a / SLOTS).present
    {
      mem := Kalloc();
      if mem == 0 {
        return 0, NoMemory;
      }
      assert old(free)[1..] == free;
      TakeKernel(old(free), tables, data, owner, mem, contents, free, data[mem := contents], owner[mem := Kernel]);
      data := data[mem := contents];
      owner := owner[mem := Kernel];
      assert a * PGSIZE / PGSIZE == a && LastPage(a * PGSIZE, PGSIZE) == a;
      ghost var stop;
      r, stop := MapPages(d, a * PGSIZE, PGSIZE, mem, perm);
    }

    /** freevm: every frame of d's -- pages, tables and the directory -- is freed, once, and no other. */
    method FreeVm(d: int)
      requires Valid() && IsDir(owner, d)
      modifies this`free, this`tables, this`data, this`owner
      ensures Valid() && Released(old(owner), owner, d) && KeepsOthers(old(tables), old(data), tables, data, owner)
    {
      var sz := DeallocUvm(d, KERNBASE, 0);
      ghost var tables1, data1, owner1 := tables, data, owner;
      FreeTables(d);
      DropDirectory(free, tables, data, owner, tables1, data1, owner1, d, [d] + free, tables - {d}, data - {d},
                    owner[d := Free]);
      Kfree(d);
      owner := owner[d := Free];
      ReleasedAll(old(tables), old(data), old(owner), tables1, data1, owner1, tables, data, owner, d);
    }

    /** freevm's loop over the directory. */
    method FreeTables(d: int)
      requires Valid() && IsDir(owner, d) && NoneMapped(tables, d, 0, USER)
      modifies this`free, this`tables, this`data, this`owner
      ensures IsDir(owner, d) && Dying(free, tables, data, owner, old(tables), old(data), old(owner), d, SLOTS)
    {
      StartDying(free, tables, data, owner, d);
      var i := 0;
      while i < SLOTS
        invariant 0 <= i <= SLOTS && IsDir(owner, d)
        invariant Dying(free, tables, data, owner, old(tables), old(data), old(owner), d, i)
      {
        assert Used(free, tables, data, owner, d, i, d);
        if tables[d][i].present {
          var f := tables[d][i].frame;
          DropTable(free, tables, data, owner, old(tables), old(data), old(owner), d, i, f, [f] + free, tables - {f},
                    data - {f}, owner[f := Free]);
          Kfree(f);
          owner := owner[f := Free];
        } else {
          KeepSlot(free, tables, data, owner, old(tables), old(data), old(owner), d, i);
        }
        i := i + 1;
      }
    }

    /** setupkvm, where the kernel's writable data begins at page `text`: a directory that maps the kernel
        and nothing else, or 0 and every frame back. */
    method SetupKvm(text: int) returns (d: int)
      requires Valid() && USER + 0x100 < text < USER + 0xE000
      modifies this`free, this`tables, this`data, this`owner
      ensures Valid()
      ensures d == 0 ==>
        SameOwners(old(owner), owner) && KeepsOthers(old(tables), old(data), tables, data, owner)
        && |old(free)| < KERNEL_FRAMES
      ensures d != 0 ==>
        KernelMapped(old(free), old(tables), old(data), old(owner), free, tables, data, owner, text, d, 4)
    {
      d := Kalloc();
      if d == 0 {
        return 0;
      }
      MakeDirectory(old(free), tables, data, owner, d, free, tables[d := seq(SLOTS, _ => ABSENT)],
                    owner[d := Directory], text);
      tables := tables[d := seq(SLOTS, _ => ABSENT)];
      owner := owner[d := Directory];
      var i := 0;
      while i < 4
        invariant 0 <= i <= 4 && Valid() && data == old(data)
        invariant KernelMapped(old(free), old(tables), old(data), old(owner), free, tables, data, owner, text, d, i)
      {
        var ok := MapRow(text, d, i, old(free), old(tables), old(data), old(owner));
        if !ok {
          GiveUp(d, old(free), old(tables), old(data), old(owner));
          return 0;
        }
        i := i + 1;
      }
    }

    /** A round of setupkvm's loop: row i of kmap. */
    method MapRow(text: int, d: int, i: int, ghost free0: seq<int>, ghost tables0: Tables, ghost data0: map<int, Page>,
                  ghost owner0: Owners) returns (ok: bool)
      requires Valid() && USER + 0x100 < text < USER + 0xE000 && 0 <= i < 4
      requires KernelMapped(free0, tables0, data0, owner0, free, tables, data, owner, text, d, i)
      modifies this`free, this`tables, this`owner
      ensures Valid() && IsDir(owner, d) && GrewDir(owner0, owner, d) && SameElsewhere(tables0, tables, owner, d)
      ensures if ok then KernelMapped(free0, tables0, data0, owner0, free, tables, data, owner, text, d, i + 1)
        else |free0| < KERNEL_FRAMES
    {
      var k := Kmap(text)[i];
      KmapBounds(text, i);
      var r; ghost var stop;
      r, stop := MapPages(d, k.virt * PGSIZE, (k.end - k.start) * PGSIZE % UINT, k.start, k.perm);
      KernelNext(free0, tables0, data0, owner0, old(free), old(tables), old(owner), free, tables, data, owner, text, d,
                 i, stop, r);
      ok := r.Mapped?;
    }

    /** freevm of an address space that could not be completed. */
    method GiveUp(d: int, ghost free0: seq<int>, ghost tables0: Tables, ghost data0: map<int, Page>,
                  ghost owner0: Owners)
      requires Valid() && IsDir(owner, d) && Owned(free0, tables0, data0, owner0, -1, 0) && d in owner0
      requires owner0[d] == Free
      requires GrewDir(owner0, owner, d) && SameElsewhere(tables0, tables, owner, d) && KeepsData(data0, data, owner0)
      modifies this`free, this`tables, this`data, this`owner
      ensures Valid() && SameOwners(owner0, owner) && KeepsOthers(tables0, data0, tables, data, owner)
    {
      FreeVm(d);
      BackAgain(free0, tables0, data0, owner0, old(tables), old(data), old(owner), tables, data, owner, d);
    }

    /** copyuvm: a new address space whose user pages hold what the first sz bytes of p's hold, with p's
        permissions, in frames of its own; or 0 and every frame back. `panic` is its panic at a page of p's that
        is not mapped. */
    method CopyUvm(p: int, sz: int, text: int) returns (d: int, panic: bool)
      requires Valid() && IsDir(owner, p) && 0 <= sz <= KERNBASE && USER + 0x100 < text < USER + 0xE000
      modifies this`free, this`tables, this`data, this`owner
      ensures Valid() && (panic ==> !AllMapped(old(tables), p, RoundUp(sz)))
      ensures !panic && d == 0 ==>
        && SameOwners(old(owner), owner) && KeepsOthers(old(tables), old(data), tables, data, owner)
        && |old(free)| < KERNEL_FRAMES + RoundUp(sz) + NewTables(false, 0, RoundUp(sz))
      ensures !panic && d != 0 ==>
        Copied(old(free), old(tables), old(data), old(owner), free, tables, data, owner, text, p, d, RoundUp(sz))
    {
      panic := false;
      d := SetupKvm(text);
      if d == 0 {
        return 0, false;
      }
      CopiedNone(old(free), old(tables), old(data), old(owner), free, tables, data, owner, text, p, d);
      var i := 0;
      while i * PGSIZE < sz
        invariant 0 <= i <= RoundUp(sz) && Valid()
        invariant Copied(old(free), old(tables), old(data), old(owner), free, tables, data, owner, text, p, d, i)
      {
        var ok;
        ok, panic := CopyPage(p, d, i, text, old(free), old(tables), old(data), old(owner));
        if panic {
          return;
        }
        if !ok {
          GiveUp(d, old(free), old(tables), old(data), old(owner));
          return 0, false;
        }
        i := i + 1;
      }
    }

    /** A round of copyuvm's loop: page i of p. */
    method CopyPage(p: int, d: int, i: int, text: int, ghost free0: seq<int>, ghost tables0: Tables,
                    ghost data0: map<int, Page>, ghost owner0: Owners) returns (ok: bool, panic: bool)
      requires Valid() && 0 <= i < USER < text && IsDir(owner0, p) && Owned(free0, tables0, data0, owner0, -1, 0)
      requires Copied(free0, tables0, data0, owner0, free, tables, data, owner, text, p, d, i)
      modifies this`free, this`tables, this`data, this`owner
      ensures Valid() && panic == !Lookup(tables0, p, i).present
      ensures d in owner0 && owner0[d] == Free && IsDir(owner, d)
      ensures GrewDir(owner0, owner, d) && SameElsewhere(tables0, tables, owner, d) && KeepsData(data0, data, owner0)
      ensures !panic && ok ==> Copied(free0, tables0, data0, owner0, free, tables, data, owner, text, p, d, i + 1)
      ensures !panic && !ok ==> |free0| < KERNEL_FRAMES + i + 1 + NewTables(false, 0, i + 1)
    {
      SourceStill(free0, tables0, data0, owner0, free, tables, data, owner, text, p, d, i);
      var t := Walk(p, i, false);
      if t == 0 || !tables[t][i % SLOTS].present {
        return false, true;
      }
      SourcePage(free0, tables0, data0, owner0, free, tables, data, owner, text, p, d, i);
      var pte := tables[t][i % SLOTS];
      ok := CopyInto(p, d, i, text, pte, free0, tables0, data0, owner0);
      panic := false;
    }

    /** The page itself: a frame, the contents, the mapping. */
    method CopyInto(p: int, d: int, i: int, text: int, pte: Pte, ghost free0: seq<int>, ghost tables0: Tables,
                    ghost data0: map<int, Page>, ghost owner0: Owners) returns (ok: bool)
      requires Valid() && 0 <= i < USER < text
      requires Copied(free0, tables0, data0, owner0, free, tables, data, owner, text, p, d, i)
      requires Lookup(tables0, p, i) == pte && pte.present && !Lookup(tables, d, i).present
      requires pte.frame in data0 && pte.frame in data && data[pte.frame] == data0[pte.frame]
      modifies this`free, this`tables, this`data, this`owner
      ensures Valid() && d in owner0 && owner0[d] == Free && IsDir(owner, d)
      ensures GrewDir(owner0, owner, d) && SameElsewhere(tables0, tables, owner, d) && KeepsData(data0, data, owner0)
      ensures if ok then Copied(free0, tables0, data0, owner0, free, tables, data, owner, text, p, d, i + 1)
              else |free0| < KERNEL_FRAMES + i + 1 + NewTables(false, 0, i + 1)
    {
      var mem, r := PlacePage(d, i, data[pte.frame], pte.perm);
      ok := r.Mapped?;
      if ok {
        CopiedOne(free0, tables0, data0, owner0, old(free), old(tables), old(data), old(owner), old(free)[1..],
                  old(owner)[mem := Kernel], mem,
                  free, tables, data, owner, text, p, d, i, pte, i + 1);
      } else if mem != 0 {
        GiveBack(mem);
      }
    }
  }

  ghost predicate AllMapped(tables: Tables, d: int, n: int)
  {
    forall v {:trigger Lookup(tables, d, v)} :: 0 <= v < n ==> Lookup(tables, d, v).present
  }

  /** e' maps a page that holds what e's held, with the same permissions. */
  predicate IsCopy(e: Pte, data: map<int, Page>, e': Pte, data': map<int, Page>)
  {
    && e.present && e'.present && e'.perm == e.perm
    && e.frame in data && e'.frame in data' && data'[e'.frame] == data[e.frame]
  }

  /** What copyuvm has done when it has copied n pages of p to the new directory d. */
  ghost predicate Copied(free: seq<int>, tables: Tables, data: map<int, Page>, owner: Owners, free': seq<int>,
                         tables': Tables, data': map<int, Page>, owner': Owners, text: int, p: int, d: int, n: int)
  {
    && d in owner && owner[d] == Free && IsDir(owner', d) && GrewDir(owner, owner', d)
    && SameElsewhere(tables, tables', owner', d)
    && KeepsData(data, data', owner)
    && (forall v {:trigger Lookup(tables', d, v)} ::
      if 0 <= v < n then IsCopy(Lookup(tables, p, v), data, Lookup(tables', d, v), data')
        else Lookup(tables', d, v) == KernelPte(text, v))
    && |free| <= |free'| + KERNEL_FRAMES + n + NewTables(false, 0, n)
    && (n > 0 ==> Entry(tables', d, (n - 1) / SLOTS).present)
  }

  lemma CopiedNone(free: seq<int>, tables: Tables, data: map<int, Page>, owner: Owners,
                   free': seq<int>, tables': Tables, data': map<int, Page>, owner': Owners, text: int, p: int, d: int)
    requires KernelMapped(free, tables, data, owner, free', tables', data', owner', text, d, 4)
    ensures Copied(free, tables, data, owner, free', tables', data', owner', text, p, d, 0)
  {
  }

  /** p still maps page i as it did. */
  lemma SourceStill(free: seq<int>, tables: Tables, data: map<int, Page>, owner: Owners, free1: seq<int>,
                    tables1: Tables, data1: map<int, Page>, owner1: Owners, text: int, p: int, d: int, i: int)
    requires IsDir(owner, p) && Copied(free, tables, data, owner, free1, tables1, data1, owner1, text, p, d, i)
    ensures p != d && IsDir(owner1, p) && Lookup(tables1, p, i) == Lookup(tables, p, i)
  {
  }

  /** p still maps page i as it did, to a page with the contents it had; d does not map it yet. */
  lemma SourcePage(free: seq<int>, tables: Tables, data: map<int, Page>, owner: Owners, free1: seq<int>,
                   tables1: Tables, data1: map<int, Page>, owner1: Owners, text: int, p: int, d: int, i: int)
    requires 0 <= i < USER < text && IsDir(owner, p) && Owned(free, tables, data, owner, -1, 0)
    requires Owned(free1, tables1, data1, owner1, -1, 0)
    requires Copied(free, tables, data, owner, free1, tables1, data1, owner1, text, p, d, i)
    requires Lookup(tables, p, i).present
    ensures p != d && IsDir(owner1, p) && Lookup(tables1, p, i) == Lookup(tables, p, i)
    ensures !Lookup(tables1, d, i).present
    ensures Entry(tables1, p, i / SLOTS).present && IsTable(tables1, Entry(tables1, p, i / SLOTS).frame)
    ensures var f := Lookup(tables, p, i).frame; f in data && f in data1 && data1[f] == data[f]
  {
    assert p in owner1;
    assert Lookup(tables1, p, i) == Lookup(tables, p, i);
    var f := Lookup(tables, p, i).frame;
    assert f in owner && owner[f] == User(p, i);
    assert Used(free, tables, data, owner, -1, 0, f);
    assert Used(free1, tables1, data1, owner1, -1, 0, p);
    var t := Entry(tables1, p, i / SLOTS).frame;
    assert t in owner1;
    assert Used(free1, tables1, data1, owner1, -1, 0, t);
  }

  lemma CopiedOne(free: seq<int>, tables: Tables, data: map<int, Page>, owner: Owners, free1: seq<int>, tables1: Tables,
                  data1: map<int, Page>, owner1: Owners, rest1: seq<int>, held1: Owners, mem: int, free2: seq<int>,
                  tables2: Tables, data2: map<int, Page>, owner2: Owners, text: int, p: int, d: int, i: int, e: Pte,
                  n: int)
    requires 0 <= i < USER && n == i + 1 && Owned(free1, tables1, data1, owner1, -1, 0) && IsDir(owner2, d)
    requires KeepsData(data1, data2, owner1)
    requires Copied(free, tables, data, owner, free1, tables1, data1, owner1, text, p, d, i)
    requires Lookup(tables, p, i) == e && e.present && e.frame in data && e.frame in data1
    requires data1[e.frame] == data[e.frame]
    requires |free1| == 1 + |rest1| && mem in owner1 && owner1[mem] == Free && held1 == owner1[mem := Kernel]
    requires data2 == data1[mem := data1[e.frame]]
    requires Extends(rest1, tables1, held1, free2, tables2, owner2, d, i, n, mem, e.perm)
    ensures Copied(free, tables, data, owner, free2, tables2, data2, owner2, text, p, d, n)
  {
    forall d', v {:trigger Lookup(tables2, d', v)} | IsDir(owner2, d')
      ensures IsDir(owner1, d')
    {
      assert d' in owner1;
    }
  }

  const KERNEL_FRAMES := 65  // a directory and 64 tables

  /** A row of kmap, in pages. */
  datatype KernelRange = KernelRange(virt: int, start: int, end: int, perm: int)

  function Kmap(text: int): (rows: seq<KernelRange>)
    ensures |rows| == 4
  {
    [ KernelRange(USER, 0, 0x100, PTE_W),
      KernelRange(USER + 0x100, 0x100, text - USER, 0),
      KernelRange(text, text - USER, 0xE000, PTE_W),
      KernelRange(0xFE000, 0xFE000, 0, PTE_W) ]
  }

  /** Which row of kmap covers page v; 4 if none. */
  function Region(text: int, v: int): (i: int)
  {
    if USER <= v < USER + 0x100 then 0 else if USER + 0x100 <= v < text then 1 else if text <= v < USER + 0xE000 then 2
    else if 0xFE000 <= v < 0x10_0000 then 3 else 4
  }

  /** The kernel's address space as a flat map: physical memory at KERNBASE, text read-only, devices in place. */
  function KernelPte(text: int, v: int): (e: Pte)
  {
    match Region(text, v)
    case 0 => Pte(true, v - USER, PTE_W)
    case 1 => Pte(true, v - USER, 0)
    case 2 => Pte(true, v - USER, PTE_W)
    case 3 => Pte(true, v, PTE_W)
    case _ => ABSENT
  }

  /** Tables needed for the first i rows of kmap. */
  function KernelTables(text: int, i: int): (n: int)
  {
    if i == 0 then 0 else if i == 1 then 1
      else if i == 2 then 1 + (text - 1) / SLOTS - 0x200 else if i == 3 then 56 else 64
  }

  ghost predicate SameOwners(owner: Owners, owner': Owners)
  {
    && (forall f :: f in owner' <==> f in owner)
    && (forall f :: f in owner ==> owner'[f] == owner[f])
  }

  /** Free frames went to d's address space; no other frame changed hands. */
  ghost predicate GrewDir(owner: Owners, owner': Owners, d: int)
  {
    && (forall f :: f in owner' <==> f in owner)
    && (forall f :: f in owner ==> owner'[f] == owner[f] || (owner[f] == Free && Belongs(owner'[f], f, d)))
  }

  ghost predicate SameElsewhere(tables: Tables, tables': Tables, owner': Owners, d: int)
  {
    forall d', v {:trigger Lookup(tables', d', v)} :: IsDir(owner', d') && d' != d ==>
      Lookup(tables', d', v) == Lookup(tables, d', v)
  }

  /** The new directory d maps the first i rows of kmap and nothing else. */
  ghost predicate KernelMapped(free: seq<int>, tables: Tables, data: map<int, Page>, owner: Owners, free': seq<int>,
                               tables': Tables, data': map<int, Page>, owner': Owners, text: int, d: int, i: int)
  {
    && d in owner && owner[d] == Free && IsDir(owner', d) && GrewDir(owner, owner', d)
    && SameElsewhere(tables, tables', owner', d)
    && KeepsData(data, data', owner)
    && (forall v {:trigger Lookup(tables', d, v)} ::
        Lookup(tables', d, v) == if Region(text, v) < i then KernelPte(text, v) else ABSENT)
    && |free| <= |free'| + 1 + KernelTables(text, i)
    && (i == 1 ==> Entry(tables', d, 0x200).present) && (i == 2 ==> Entry(tables', d, (text - 1) / SLOTS).present)
  }

  lemma KmapBounds(text: int, i: int)
    requires USER + 0x100 < text < USER + 0xE000 && 0 <= i < 4
    ensures var k := Kmap(text)[i]; var size := (k.end - k.start) * PGSIZE % UINT;
      && 0 <= k.virt * PGSIZE && 1 <= size && k.virt * PGSIZE + size <= UINT && USER <= k.virt
      && k.virt * PGSIZE / PGSIZE == k.virt
      && (forall v :: k.virt <= v <= LastPage(k.virt * PGSIZE, size) <==> Region(text, v) == i)
  {
  }

  lemma MakeDirectory(free: seq<int>, tables: Tables, data: map<int, Page>, owner: Owners, d: int, free': seq<int>,
                      tables': Tables, owner': Owners, text: int)
    requires Owned(free, tables, data, owner, -1, 0) && free == [d] + free' && d > 0
    requires tables' == tables[d := seq(SLOTS, _ => ABSENT)] && owner' == owner[d := Directory]
    ensures Owned(free', tables', data, owner', -1, 0)
    ensures KernelMapped(free, tables, data, owner, free', tables', data, owner', text, d, 0)
  {
    assert free[0] == d;
    assert forall i :: 0 <= i < |free'| ==> free'[i] == free[i + 1];
    forall d', j {:trigger Entry(tables', d', j)} | IsDir(owner', d')
      ensures Entry(tables', d', j) == if d' == d then ABSENT else Entry(tables, d', j)
    {
    }
    forall d', v {:trigger Lookup(tables', d', v)} | IsDir(owner', d') && d' != d
      ensures Lookup(tables', d', v) == Lookup(tables, d', v)
    {
      assert Used(free, tables, data, owner, -1, 0, d');
    }
    forall g | g in owner'
      ensures Used(free', tables', data, owner', -1, 0, g)
    {
      if g != d {
        assert Used(free, tables, data, owner, -1, 0, g);
      }
    }
  }

  lemma KernelNext(free: seq<int>, tables: Tables, data: map<int, Page>, owner: Owners, free1: seq<int>,
                   tables1: Tables, owner1: Owners, free2: seq<int>, tables2: Tables, data2: map<int, Page>,
                   owner2: Owners, text: int, d: int, i: int, stop: int, r: MapResult)
    requires USER + 0x100 < text < USER + 0xE000 && 0 <= i < 4 && IsDir(owner2, d)
    requires KernelMapped(free, tables, data, owner, free1, tables1, data2, owner1, text, d, i)
    requires var k := Kmap(text)[i]; var last := LastPage(k.virt * PGSIZE, (k.end - k.start) * PGSIZE % UINT);
      && Extends(free1, tables1, owner1, free2, tables2, owner2, d, k.virt, stop, k.start, k.perm)
      && (if r.Mapped? then stop == last + 1 else k.virt <= stop <= last)
      && (r.Remap? ==> Lookup(tables1, d, stop).present)
      && (r.NoMemory? ==> free2 == [] && !Entry(tables2, d, stop / SLOTS).present)
    ensures !r.Remap? && GrewDir(owner, owner2, d) && SameElsewhere(tables, tables2, owner2, d)
    ensures r.Mapped? ==> KernelMapped(free, tables, data, owner, free2, tables2, data2, owner2, text, d, i + 1)
    ensures r.NoMemory? ==> |free| < KERNEL_FRAMES
  {
    KmapBounds(text, i);
    if r.Mapped? {
      RowMapped(tables1, tables2, owner2, text, d, i, stop);
      RowTables(Entry(tables1, d, Kmap(text)[i].virt / SLOTS).present, text, i, stop);
    }
  }

  /** The pages of row i join those of the rows before it. */
  lemma RowMapped(tables1: Tables, tables2: Tables, owner2: Owners, text: int, d: int, i: int, stop: int)
    requires USER + 0x100 < text < USER + 0xE000 && 0 <= i < 4 && IsDir(owner2, d)
    requires forall v {:trigger Lookup(tables1, d, v)} ::
      Lookup(tables1, d, v) == if Region(text, v) < i then KernelPte(text, v) else ABSENT
    requires Maps(tables1, tables2, owner2, d, Kmap(text)[i].virt, stop, Kmap(text)[i].start, Kmap(text)[i].perm)
    requires stop - 1 ==
      LastPage(Kmap(text)[i].virt * PGSIZE, (Kmap(text)[i].end - Kmap(text)[i].start) * PGSIZE % UINT)
    ensures forall v {:trigger Lookup(tables2, d, v)} ::
      Lookup(tables2, d, v) == if Region(text, v) < i + 1 then KernelPte(text, v) else ABSENT
  {
    KmapBounds(text, i);
  }

  /** A row needs a table for each 4 megabytes it reaches into beyond the table the row before it ends in. */
  lemma RowTables(present: bool, text: int, i: int, stop: int)
    requires USER + 0x100 < text < USER + 0xE000 && 0 <= i < 4
    requires (i == 1 ==> present) && (i == 2 && text / SLOTS == (text - 1) / SLOTS ==> present)
    requires stop - 1 ==
      LastPage(Kmap(text)[i].virt * PGSIZE, (Kmap(text)[i].end - Kmap(text)[i].start) * PGSIZE % UINT)
    ensures KernelTables(text, i) + NewTables(present, Kmap(text)[i].virt, stop) <= KernelTables(text, i + 1)
  {
  }

  /** What a new address space took, freevm gives back. */
  lemma BackAgain(free: seq<int>, tables: Tables, data: map<int, Page>, owner: Owners, tables1: Tables,
                  data1: map<int, Page>, owner1: Owners, tables2: Tables, data2: map<int, Page>, owner2: Owners, d: int)
    requires Owned(free, tables, data, owner, -1, 0) && d in owner && owner[d] == Free && GrewDir(owner, owner1, d)
    requires SameElsewhere(tables, tables1, owner1, d)
    requires KeepsData(data, data1, owner) && Released(owner1, owner2, d)
    requires KeepsOthers(tables1, data1, tables2, data2, owner2)
    ensures SameOwners(owner, owner2) && KeepsOthers(tables, data, tables2, data2, owner2)
  {
    forall f | f in owner
      ensures !Belongs(owner[f], f, d)
    {
      assert Used(free, tables, data, owner, -1, 0, f);
    }
    forall d', v {:trigger Lookup(tables2, d', v)} | IsDir(owner2, d')
      ensures Lookup(tables2, d', v) == Lookup(tables, d', v)
    {
      assert d' in owner1 && d' != d;
    }
  }

  /** The frames that belong to d's address space. */
  predicate Belongs(o: Owner, f: int, d: int)
  {
    (o == Directory && f == d) || (o.Table? && o.dir == d) || (o.User? && o.dir == d)
  }

  ghost predicate Released(owner: Owners, owner': Owners, d: int)
  {
    && (forall f :: f in owner' <==> f in owner)
    && (forall f :: f in owner ==> owner'[f] == if Belongs(owner[f], f, d) then Free else owner[f])
  }

  /** The directories left map what they mapped, and their pages hold what they held. */
  ghost predicate KeepsOthers(tables: Tables, data: map<int, Page>, tables': Tables, data': map<int, Page>,
                              owner': Owners)
  {
    SameMaps(tables, tables', owner') && KeepsData(data, data', owner')
  }

  /** freevm has freed the tables of d's slots below i. */
  ghost predicate Dying(free: seq<int>, tables: Tables, data: map<int, Page>, owner: Owners, tables1: Tables,
                        data1: map<int, Page>, owner1: Owners, d: int, i: int)
  {
    && Owned(free, tables, data, owner, d, i) && KeepsData(data1, data, owner)
    && (forall f :: f in owner <==> f in owner1)
    && (forall f :: f in owner ==>
        owner[f] == if owner1[f].Table? && owner1[f].dir == d && owner1[f].slot < i then Free else owner1[f])
    && (forall d', v {:trigger Lookup(tables, d', v)} :: IsDir(owner, d') && d' != d ==>
        Lookup(tables, d', v) == Lookup(tables1, d', v))
  }

  lemma StartDying(free: seq<int>, tables: Tables, data: map<int, Page>, owner: Owners, d: int)
    requires Owned(free, tables, data, owner, -1, 0) && NoneMapped(tables, d, 0, USER)
    ensures Dying(free, tables, data, owner, tables, data, owner, d, 0)
  {
    forall f | f in owner
      ensures Used(free, tables, data, owner, d, 0, f)
    {
      assert Used(free, tables, data, owner, -1, 0, f);
    }
    forall f | f in owner && owner[f].Table?
      ensures owner[f].slot >= 0
    {
      assert Used(free, tables, data, owner, -1, 0, f);
    }
  }

  lemma KeepSlot(free: seq<int>, tables: Tables, data: map<int, Page>, owner: Owners, tables1: Tables,
                 data1: map<int, Page>, owner1: Owners, d: int, i: int)
    requires 0 <= i < SLOTS && Dying(free, tables, data, owner, tables1, data1, owner1, d, i)
    requires !Entry(tables, d, i).present
    ensures Dying(free, tables, data, owner, tables1, data1, owner1, d, i + 1)
  {
    forall f | f in owner
      ensures Used(free, tables, data, owner, d, i + 1, f) && owner[f] != Table(d, i)
    {
      assert Used(free, tables, data, owner, d, i, f);
    }
  }

  lemma DropTable(free: seq<int>, tables: Tables, data: map<int, Page>, owner: Owners, tables1: Tables,
                  data1: map<int, Page>, owner1: Owners, d: int, i: int, f: int, free': seq<int>, tables': Tables,
                  data': map<int, Page>, owner': Owners)
    requires 0 <= i < SLOTS && IsDir(owner, d) && Dying(free, tables, data, owner, tables1, data1, owner1, d, i)
    requires Entry(tables, d, i).present && Entry(tables, d, i).frame == f
    requires free' == [f] + free && tables' == tables - {f} && data' == data - {f} && owner' == owner[f := Free]
    ensures f in owner && IsDir(owner', d) && Dying(free', tables', data', owner', tables1, data1, owner1, d, i + 1)
  {
    assert owner[f] == Table(d, i);
    forall d', j {:trigger Entry(tables', d', j)} | IsDir(owner', d')
      ensures Entry(tables', d', j) == Entry(tables, d', j)
    {
    }
    forall d', v {:trigger Lookup(tables', d', v)} | IsDir(owner', d') && d' != d
      ensures Lookup(tables', d', v) == Lookup(tables, d', v)
    {
      assert Used(free, tables, data, owner, d, i, d');
    }
    forall g | g in owner'
      ensures Used(free', tables', data', owner', d, i + 1, g)
      ensures g != f ==> owner[g] != Table(d, i)
    {
      assert Used(free, tables, data, owner, d, i, g);
    }
  }

  lemma DropDirectory(free: seq<int>, tables: Tables, data: map<int, Page>, owner: Owners, tables1: Tables,
                      data1: map<int, Page>, owner1: Owners, d: int, free': seq<int>, tables': Tables,
                      data': map<int, Page>, owner': Owners)
    requires IsDir(owner, d) && Dying(free, tables, data, owner, tables1, data1, owner1, d, SLOTS)
    requires free' == [d] + free && tables' == tables - {d} && data' == data - {d} && owner' == owner[d := Free]
    ensures Owned(free', tables', data', owner', -1, 0) && KeepsOthers(tables1, data1, tables', data', owner')
    ensures forall f :: f in owner1 ==>
      f in owner' && owner'[f] == (if f == d || TableOf(owner1[f], d) then Free else owner1[f])
      && !(owner1[f].User? && owner1[f].dir == d)
  {
    forall d', j {:trigger Entry(tables', d', j)} | IsDir(owner', d')
      ensures Entry(tables', d', j) == Entry(tables, d', j)
    {
    }
    forall d', v {:trigger Lookup(tables', d', v)} | IsDir(owner', d')
      ensures Lookup(tables', d', v) == Lookup(tables, d', v)
    {
      assert Used(free, tables, data, owner, d, SLOTS, d');
    }
    forall g | g in owner'
      ensures Used(free', tables', data', owner', -1, 0, g) && !(owner1[g].User? && owner1[g].dir == d)
      ensures !TableOf(owner[g], d)
    {
      assert Used(free, tables, data, owner, d, SLOTS, g);
    }
  }

  lemma ReleasedAll(tables: Tables, data: map<int, Page>, owner: Owners, tables1: Tables, data1: map<int, Page>,
                    owner1: Owners, tables2: Tables, data2: map<int, Page>, owner2: Owners, d: int)
    requires Unmapped(tables, data, owner, tables1, data1, owner1, d, 0, USER)
    requires KeepsOthers(tables1, data1, tables2, data2, owner2)
    requires IsDir(owner1, d) && (forall f :: f in owner2 <==> f in owner1)
    requires forall f :: f in owner1 ==> !(owner1[f].User? && owner1[f].dir == d)
    requires forall f :: f in owner1 ==> owner2[f] == if f == d || TableOf(owner1[f], d) then Free else owner1[f]
    ensures Released(owner, owner2, d) && KeepsOthers(tables, data, tables2, data2, owner2)
  {
    forall d', v {:trigger Lookup(tables2, d', v)} | IsDir(owner2, d')
      ensures Lookup(tables2, d', v) == Lookup(tables, d', v)
    {
      assert IsDir(owner1, d') && d' != d;
    }
    forall f | f in owner
      ensures f in owner1
    {
    }
  }

  lemma OnePage(free: seq<int>, tables: Tables, data: map<int, Page>, owner: Owners, free1: seq<int>, owner1: Owners,
                free2: seq<int>, tables2: Tables, data2: map<int, Page>, owner2: Owners, d: int, a: int, b: int,
                mem: int)
    requires |free| == 1 + |free1| && mem in owner && owner[mem] == Free && owner1 == owner[mem := Kernel]
    requires data2 == data[mem := Zeros()] && 0 <= a < USER && b == a + 1
    requires Extends(free1, tables, owner1, free2, tables2, owner2, d, a, b, mem, PTE_W + PTE_U)
    ensures Allocated(free, tables, data, owner, free2, tables2, data2, owner2, d, a, b)
  {
  }

  lemma TakeKernel(free: seq<int>, tables: Tables, data: map<int, Page>, owner: Owners, f: int, contents: Page,
                   free': seq<int>, data': map<int, Page>, owner': Owners)
    requires Owned(free, tables, data, owner, -1, 0) && free == [f] + free' && data' == data[f := contents]
    requires owner' == owner[f := Kernel]
    ensures f in owner && owner[f] == Free && Owned(free', tables, data', owner', -1, 0)
  {
    assert free[0] == f;
    forall g | g in owner'
      ensures Used(free', tables, data', owner', -1, 0, g)
    {
      assert Used(free, tables, data, owner, -1, 0, g);
    }
    assert forall i :: 0 <= i < |free'| ==> free'[i] == free[i + 1];
  }

  lemma ReleaseKernel(free: seq<int>, tables: Tables, data: map<int, Page>, owner: Owners, f: int,
                      free': seq<int>, tables': Tables, data': map<int, Page>, owner': Owners)
    requires Owned(free, tables, data, owner, -1, 0) && f in owner && owner[f] == Kernel
    requires free' == [f] + free && tables' == tables - {f} && data' == data - {f} && owner' == owner[f := Free]
    ensures Owned(free', tables', data', owner', -1, 0) && SameMaps(tables, tables', owner')
  {
    forall d, v {:trigger Lookup(tables', d, v)} | IsDir(owner', d)
      ensures Lookup(tables', d, v) == Lookup(tables, d, v)
    {
      assert Used(free, tables, data, owner, -1, 0, d);
      assert Entry(tables', d, v / SLOTS) == Entry(tables, d, v / SLOTS);
    }
    forall d, i {:trigger Entry(tables', d, i)} | IsDir(owner', d)
      ensures Entry(tables', d, i) == Entry(tables, d, i)
    {
    }
    forall g | g in owner'
      ensures Used(free', tables', data', owner', -1, 0, g)
    {
      assert Used(free, tables, data, owner, -1, 0, g);
    }
  }

  lemma AllocatedOne(free: seq<int>, tables: Tables, data: map<int, Page>, owner: Owners, free1: seq<int>,
                     tables1: Tables, data1: map<int, Page>, owner1: Owners, rest1: seq<int>, held1: Owners, mem: int,
                     free2: seq<int>, tables2: Tables, data2: map<int, Page>, owner2: Owners, d: int, lo: int, a: int,
                     b: int)
    requires 0 <= lo <= a < USER && b == a + 1 && IsDir(owner1, d) && Owned(free1, tables1, data1, owner1, -1, 0)
    requires Allocated(free, tables, data, owner, free1, tables1, data1, owner1, d, lo, a)
    requires |free1| == 1 + |rest1| && mem in owner1 && owner1[mem] == Free && held1 == owner1[mem := Kernel]
    requires data2 == data1[mem := Zeros()]
    requires Extends(rest1, tables1, held1, free2, tables2, owner2, d, a, b, mem, PTE_W + PTE_U)
    ensures Allocated(free, tables, data, owner, free2, tables2, data2, owner2, d, lo, b)
  {
    OnePage(free1, tables1, data1, owner1, rest1, held1, free2, tables2, data2, owner2, d, a, b, mem);
    forall d', v {:trigger Lookup(tables2, d', v)} | IsDir(owner2, d')
      ensures IsDir(owner1, d')
      ensures if d' == d && lo <= v < b then NewPage(owner, data2, Lookup(tables2, d', v))
        else Lookup(tables2, d', v) == Lookup(tables, d', v)
    {
      assert d' in owner1;
    }
    assert Lookup(tables1, d, a) == Lookup(tables1, d, a);
  }

  /** Undoing the pages allocuvm had mapped, and releasing the frame it could not map. */
  lemma Undone(free: seq<int>, tables: Tables, data: map<int, Page>, owner: Owners, free1: seq<int>, tables1: Tables,
               data1: map<int, Page>, owner1: Owners, mem: int, data2: map<int, Page>, owner2: Owners, tables3: Tables,
               data3: map<int, Page>, owner3: Owners, d: int, lo: int, a: int, hi: int)
    requires 0 <= lo <= a < hi && IsDir(owner3, d) && Owned(free, tables, data, owner, -1, 0)
    requires NoneMapped(tables, d, lo, hi)
    requires Allocated(free, tables, data, owner, free1, tables1, data1, owner1, d, lo, a)
    requires if mem == 0 then owner2 == owner1 && data2 == data1
      else mem in owner1 && owner1[mem] == Free && owner2 == owner1[mem := Kernel] && data2 == data1[mem := Zeros()]
    requires Unmapped(tables1, data2, owner2, tables3, data3, owner3, d, lo, hi)
    ensures SameUse(tables, tables3, owner3) && KeepsData(data, data3, owner)
    ensures Grew(owner, if mem == 0 then owner3 else owner3[mem := Free], d, 0, 0)
  {
    forall d', v {:trigger Lookup(tables3, d', v)} | IsDir(owner3, d')
      ensures IsDir(owner1, d')
    {
      assert d' in owner2;
    }
    forall f | f in owner
      ensures !PageOf(owner[f], d, lo, hi)
    {
      assert Used(free, tables, data, owner, -1, 0, f);
    }
  }

  /** With the last free frame gone, the frames the pages need exceeded the free ones. */
  lemma ShortOf(free: seq<int>, tables: Tables, data: map<int, Page>, owner: Owners, free1: seq<int>, tables1: Tables,
                data1: map<int, Page>, owner1: Owners, d: int, lo: int, a: int, hi: int, mem: int)
    requires 0 <= lo <= a < hi && Allocated(free, tables, data, owner, free1, tables1, data1, owner1, d, lo, a)
    requires |free1| == if mem == 0 then 0 else 1
    requires mem != 0 ==> !Entry(tables1, d, a / SLOTS).present
    requires IsDir(owner1, d)
    ensures |free| < Needed(tables, d, lo, hi)
  {
  }

  lemma RestoredAfter(tables: Tables, data: map<int, Page>, owner: Owners, tables3: Tables, data3: map<int, Page>,
                      owner3: Owners, tables4: Tables, data4: map<int, Page>, owner4: Owners, d: int, mem: int)
    requires SameUse(tables, tables3, owner3) && KeepsData(data, data3, owner) && Grew(owner, owner4, d, 0, 0)
    requires mem in owner && owner[mem] == Free && mem in owner3 && owner3[mem] == Kernel
    requires owner4 == owner3[mem := Free]
    requires SameMaps(tables3, tables4, owner4) && data4 == data3 - {mem}
    ensures Restored(tables, data, owner, tables4, data4, owner4, d)
  {
  }

  lemma UnmappedBoth(tables: Tables, data: map<int, Page>, owner: Owners, tables1: Tables, data1: map<int, Page>,
                     owner1: Owners, tables2: Tables, data2: map<int, Page>, owner2: Owners, d: int, lo: int, a: int,
                     b: int)
    requires lo <= a <= b && Unmapped(tables, data, owner, tables1, data1, owner1, d, lo, a)
    requires Unmapped(tables1, data1, owner1, tables2, data2, owner2, d, a, b)
    ensures Unmapped(tables, data, owner, tables2, data2, owner2, d, lo, b)
  {
    forall d', v {:trigger Lookup(tables2, d', v)} | IsDir(owner2, d')
      ensures IsDir(owner1, d')
    {
      assert d' in owner1;
    }
    forall f | f in owner2 && owner2[f].User?
      ensures f in owner1 && owner1[f].User?
    {
    }
  }

  /** Pages d does not map own nothing. */
  lemma UnmappedAbsent(free: seq<int>, tables: Tables, data: map<int, Page>, owner: Owners, d: int, a: int, b: int)
    requires Owned(free, tables, data, owner, -1, 0) && 0 <= a <= b && a / SLOTS >= (b - 1) / SLOTS
    requires !Entry(tables, d, a / SLOTS).present || (b == a + 1 && !Lookup(tables, d, a).present)
    ensures Unmapped(tables, data, owner, tables, data, owner, d, a, b)
  {
    assert forall v :: a <= v < b ==> v / SLOTS == a / SLOTS;
    forall v {:trigger Lookup(tables, d, v)} | a <= v < b
      ensures !Lookup(tables, d, v).present
    {
    }
    forall f | f in owner
      ensures !(owner[f].User? && owner[f].dir == d && a <= owner[f].page < b)
    {
      assert Used(free, tables, data, owner, -1, 0, f);
    }
  }

  /** Page a was mapped to f; no other frame had that owner. */
  lemma UnmappedOne(free: seq<int>, tables: Tables, data: map<int, Page>, owner: Owners, d: int, a: int, t: int, f: int,
                    tables': Tables, owner': Owners)
    requires Owned(free, tables, data, owner, -1, 0) && IsDir(owner, d) && 0 <= a < USER && Lookup(tables, d, a).present
    requires Entry(tables, d, a / SLOTS).present && Entry(tables, d, a / SLOTS).frame == t && IsTable(tables, t)
    requires f == Lookup(tables, d, a).frame && tables' == (tables - {f})[t := tables[t][a % SLOTS := ABSENT]]
    requires owner' == owner[f := Free]
    ensures f in owner && f != t && IsDir(owner', d)
    ensures Owned([f] + free, tables', data - {f}, owner', -1, 0)
    ensures Unmapped(tables, data, owner, tables', data - {f}, owner', d, a, a + 1)
  {
    assert owner[f] == User(d, a);
    assert Used(free, tables, data, owner, -1, 0, d);
    assert owner[t].Table?;
    Unmap(free, tables, data, owner, d, a, t, f, tables', owner');
    forall g | g in owner
      ensures owner[g] == User(d, a) <==> g == f
    {
      assert Used(free, tables, data, owner, -1, 0, g);
    }
  }

  lemma UnmappedNone(tables: Tables, data: map<int, Page>, owner: Owners, d: int, lo: int, hi: int)
    requires lo >= hi
    ensures Unmapped(tables, data, owner, tables, data, owner, d, lo, hi)
  {
  }

  lemma ExtendsOne(free: seq<int>, tables: Tables, owner: Owners, free1: seq<int>, tables1: Tables, owner1: Owners,
                   free2: seq<int>, tables2: Tables, owner2: Owners, d: int, first: int, pa: int, perm: int, a: int,
                   f: int, stop: int)
    requires first <= a <= stop <= a + 1 && f == pa + (a - first)
    requires Extends(free, tables, owner, free1, tables1, owner1, d, first, a, pa, perm)
    requires Extends(free1, tables1, owner1, free2, tables2, owner2, d, a, stop, f, perm)
    ensures Extends(free, tables, owner, free2, tables2, owner2, d, first, stop, pa, perm)
  {
    forall d', v {:trigger Lookup(tables2, d', v)} | IsDir(owner2, d')
      ensures IsDir(owner1, d')
    {
      assert d' in owner1;
    }
  }

  /** The frame for the next page is still the kernel's, and the next page is mapped as it was. */
  lemma NextFrame(tables: Tables, tables1: Tables, owner: Owners, owner1: Owners, d: int, first: int, last: int,
                  pa: int, perm: int, a: int, f: int, data: map<int, Page>)
    requires Maps(tables, tables1, owner1, d, first, a, pa, perm) && MapOwner(owner, owner1, d, first, a, pa)
    requires first <= a <= last && f == pa + (a - first) && IsDir(owner1, d) && Held(data, owner, first, last, pa)
    ensures Lookup(tables1, d, a) == Lookup(tables, d, a)
    ensures a < USER ==> f in owner1 && owner1[f] == Kernel && f in data
  {
  }
}
