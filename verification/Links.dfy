/** Link counts: sys_link, sys_unlink and create (sysfile.c) over dirlookup and dirlink (fs.c).

    One method per stretch of code that holds the locks of the inodes it touches, so every interleaving of
    system calls is a sequence of method calls. An inode records, beside its own fields, how many sys_link
    calls have raised nlink and not yet stored an entry (`promised`), and whether a sys_unlink that has removed
    its entry has still to lower nlink (`leaving`; that call keeps the inode locked until it does). */
module Links {
  const ROOT := 1
  const DOT := "."
  const DOTDOT := ".."

  datatype Dirent = Dirent(inum: int, name: string)  // inum 0: free
  datatype Kind = Unused | Directory | File | Device
  datatype Inode = Inode(kind: Kind, nlink: int, entries: seq<Dirent>, promised: int, leaving: bool)

  predicate IsFile(k: Kind)
  {
    k == File || k == Device
  }

  /** How many entries of es, "." apart, name inode i. */
  function Names(es: seq<Dirent>, i: int): (n: nat)
  {
    if es == [] then 0
    else Names(es[..|es| - 1], i) + if es[|es| - 1].inum == i && es[|es| - 1].name != DOT then 1 else 0
  }

  /** A directory that has not been unlinked. */
  predicate Linked(x: Inode)
  {
    x.kind == Directory && x.nlink > 0 && !x.leaving
  }

  function Share(x: Inode, i: int): (n: nat)
  {
    if Linked(x) then Names(x.entries, i) else 0
  }

  /** How many entries, "." apart, name inode i in the linked directories of t. */
  function Count(t: seq<Inode>, i: int): (n: nat)
  {
    if t == [] then 0 else Count(t[..|t| - 1], i) + Share(t[|t| - 1], i)
  }

  /** nlink is what the entries say, given the calls under way. */
  predicate Tally(t: seq<Inode>, i: int)
    requires 0 <= i < |t|
  {
    t[i].nlink == Count(t, i) + t[i].promised + if t[i].leaving then 1 else 0
  }

  predicate InUse(t: seq<Inode>, i: int)
  {
    0 < i < |t| && t[i].kind != Unused
  }

  // Counting.

  lemma {:induction false} NamesUpdate(es: seq<Dirent>, k: int, e: Dirent, i: int)
    requires 0 <= k < |es|
    ensures Names(es[k := e], i) ==
      Names(es, i) - (if es[k].inum == i && es[k].name != DOT then 1 else 0)
      + if e.inum == i && e.name != DOT then 1 else 0
  {
    var last := |es| - 1;
    if k == last {
      assert es[k := e][..last] == es[..last];
    } else {
      assert es[k := e][..last] == es[..last][k := e];
      NamesUpdate(es[..last], k, e, i);
    }
  }

  lemma {:induction false} NamesAppend(es: seq<Dirent>, e: Dirent, i: int)
    ensures Names(es + [e], i) == Names(es, i) + if e.inum == i && e.name != DOT then 1 else 0
  {
    assert (es + [e])[..|es|] == es;
  }

  lemma {:induction false} CountUpdate(t: seq<Inode>, d: int, x: Inode, i: int)
    requires 0 <= d < |t|
    ensures Count(t[d := x], i) == Count(t, i) - Share(t[d], i) + Share(x, i)
  {
    var last := |t| - 1;
    if d == last {
      assert t[d := x][..last] == t[..last];
    } else {
      assert t[d := x][..last] == t[..last][d := x];
      CountUpdate(t[..last], d, x, i);
    }
  }

  /** Inode i is named by slot k of es. */
  predicate At(es: seq<Dirent>, k: int, i: int)
  {
    0 <= k < |es| && es[k].inum == i && es[k].name != DOT
  }

  lemma {:induction false} NamesNone(es: seq<Dirent>, i: int)
    requires forall k :: !At(es, k, i)
    ensures Names(es, i) == 0
  {
    if es != [] {
      var last := |es| - 1;
      assert !At(es, last, i);
      forall k
        ensures !At(es[..last], k, i)
      {
        assert !At(es, k, i);
      }
      NamesNone(es[..last], i);
    }
  }

  lemma {:induction false} NamesOne(es: seq<Dirent>, k: int, i: int)
    requires At(es, k, i) && i != 0 && forall j :: At(es, j, i) ==> j == k
    ensures Names(es, i) == 1
  {
    var es' := es[k := Dirent(0, "")];
    NamesUpdate(es, k, Dirent(0, ""), i);
    forall j
      ensures !At(es', j, i)
    {
      assert At(es, j, i) ==> j == k;
    }
    NamesNone(es', i);
  }

  lemma {:induction false} NamesSome(es: seq<Dirent>, k: int, i: int)
    requires At(es, k, i)
    ensures Names(es, i) > 0
  {
    if k < |es| - 1 {
      assert At(es[..|es| - 1], k, i);
      NamesSome(es[..|es| - 1], k, i);
    }
  }

  lemma {:induction false} CountNone(t: seq<Inode>, i: int)
    requires forall d :: 0 <= d < |t| ==> Share(t[d], i) == 0
    ensures Count(t, i) == 0
  {
    if t != [] {
      CountNone(t[..|t| - 1], i);
    }
  }

  lemma {:induction false} CountSome(t: seq<Inode>, d: int, i: int)
    requires 0 <= d < |t|
    ensures Count(t, i) >= Share(t[d], i)
  {
    if d < |t| - 1 {
      CountSome(t[..|t| - 1], d, i);
    }
  }

  lemma {:induction false} CountOne(t: seq<Inode>, d: int, i: int)
    requires 0 <= d < |t| && forall b :: 0 <= b < |t| && b != d ==> Share(t[b], i) == 0
    ensures Count(t, i) == Share(t[d], i)
  {
    var x := Inode(Unused, 0, [], 0, false);
    CountUpdate(t, d, x, i);
    CountNone(t[d := x], i);
  }

  // The tree.

  predicate IsLinked(t: seq<Inode>, d: int)
  {
    0 < d < |t| && Linked(t[d])
  }

  /** A directory whose lock nobody removing it holds. */
  predicate IsDirectory(t: seq<Inode>, d: int)
  {
    0 < d < |t| && t[d].kind == Directory && !t[d].leaving
  }

  /** Slot k of linked directory d names inode i; slots 0 and 1 are the dots. */
  predicate NameAt(t: seq<Inode>, d: int, k: int, i: int)
  {
    IsLinked(t, d) && 2 <= k < |t[d].entries| && t[d].entries[k].inum == i && i != 0
  }

  /** What slot k of d names exists; a directory there has no other name and points back. */
  ghost predicate SlotRight(t: seq<Inode>, d: int, k: int)
    requires IsLinked(t, d) && 2 <= k < |t[d].entries|
  {
    var e := t[d].entries[k];
    e.inum != 0 ==>
      && InUse(t, e.inum) && e.name != DOT && e.name != DOTDOT
      && (t[e.inum].kind == Directory ==>
        && e.inum != ROOT && e.inum != d && IsLinked(t, e.inum) && |t[e.inum].entries| >= 2
        && t[e.inum].entries[1].inum == d
        && forall j :: NameAt(t, d, j, e.inum) ==> j == k)
  }

  /** A directory has its dots, and its parent is linked and names it; one that is unlinked has nothing else. */
  ghost predicate DirRight(t: seq<Inode>, d: int)
    requires 0 < d < |t|
  {
    var es := t[d].entries;
    t[d].kind == Directory ==>
      && t[d].promised == 0 && |es| >= 2 && es[0] == Dirent(d, DOT) && es[1].name == DOTDOT && 0 < es[1].inum < |t|
      && if Linked(t[d]) then
           && IsLinked(t, es[1].inum)
           && (if d == ROOT then es[1].inum == ROOT else exists k :: NameAt(t, es[1].inum, k, d))
           && (forall k {:trigger SlotRight(t, d, k)} :: 2 <= k < |es| ==> SlotRight(t, d, k))
         else
           forall k :: 2 <= k < |es| ==> es[k].inum == 0
  }

  ghost predicate NodeRight(t: seq<Inode>, i: int)
    requires 0 < i < |t|
  {
    && t[i].promised >= 0 && (t[i].kind == Unused ==> Count(t, i) == 0 && t[i].promised == 0 && !t[i].leaving)
    && (t[i].kind != Unused ==> Tally(t, i))
  }

  ghost predicate Inv(t: seq<Inode>)
  {
    && |t| > ROOT && t[0].kind == Unused && IsLinked(t, ROOT)
    && (forall d {:trigger DirRight(t, d)} :: 0 < d < |t| ==> DirRight(t, d))
    && (forall i {:trigger NodeRight(t, i)} :: 0 < i < |t| ==> NodeRight(t, i))
  }

  /** A file's counters change together: the tree does not. */
  lemma {:induction false} FileKeeps(t: seq<Inode>, i: int, x: Inode, t': seq<Inode>)
    requires Inv(t) && 0 < i < |t| && IsFile(t[i].kind) && t' == t[i := x] && x.kind == t[i].kind && x.promised >= 0
    requires x.nlink - x.promised - (if x.leaving then 1 else 0) ==
      t[i].nlink - t[i].promised - if t[i].leaving then 1 else 0
    ensures Inv(t')
  {
    forall j | 0 < j < |t|
      ensures NodeRight(t', j) && DirRight(t', j)
    {
      assert NodeRight(t, j) && DirRight(t, j);
      CountUpdate(t, i, x, j);
      SameTree(t, t', j);
    }
  }

  /** d is as right in t' as in t when no linked directory changed and nothing it names did. */
  lemma {:induction false} SameTree(t: seq<Inode>, t': seq<Inode>, d: int)
    requires 0 < d < |t| == |t'| && DirRight(t, d) && t'[d].kind == t[d].kind
    requires t[d].kind == Directory ==> t'[d] == t[d]
    requires forall b :: 0 <= b < |t| ==> t'[b].kind == t[b].kind && (t[b].kind == Directory ==> t'[b] == t[b])
    ensures DirRight(t', d)
  {
    if Linked(t[d]) {
      var p := t[d].entries[1].inum;
      if d != ROOT {
        var k :| NameAt(t, p, k, d);
        assert NameAt(t', p, k, d);
      }
      forall k | 2 <= k < |t[d].entries|
        ensures SlotRight(t', d, k)
      {
        assert SlotRight(t, d, k);
        assert forall j :: NameAt(t', d, j, t[d].entries[k].inum) <==> NameAt(t, d, j, t[d].entries[k].inum);
      }
    }
  }

  /** A new entry in a linked directory for a file that has been promised one. */
  lemma {:induction false} EntryKeeps(t: seq<Inode>, d: int, es: seq<Dirent>, k: int, name: string, i: int,
                                      t': seq<Inode>)
    requires Inv(t) && IsLinked(t, d) && 0 < i < |t| && IsFile(t[i].kind) && t[i].promised > 0 && name != DOT
    requires name != DOTDOT
    requires Stored(t[d].entries, es, k, Dirent(i, name)) && 2 <= k
    requires t' == t[d := t[d].(entries := es)][i := t[i].(promised := t[i].promised - 1)]
    ensures Inv(t')
  {
    var t1 := t[d := t[d].(entries := es)];
    forall j | 0 < j < |t|
      ensures NodeRight(t', j)
    {
      assert NodeRight(t, j);
      CountUpdate(t, d, t[d].(entries := es), j);
      CountUpdate(t1, i, t[i].(promised := t[i].promised - 1), j);
      StoredNames(t[d].entries, es, k, Dirent(i, name), j);
    }
    forall b | 0 < b < |t|
      ensures DirRight(t', b)
    {
      StoredTree(t, d, es, k, Dirent(i, name), t', b);
    }
  }

  /** es is es0 with entry e in its free slot k, or in a new one at the end. */
  ghost predicate Stored(es0: seq<Dirent>, es: seq<Dirent>, k: int, e: Dirent)
  {
    if k == |es0| then es == es0 + [e] else 0 <= k < |es0| && es0[k].inum == 0 && es == es0[k := e]
  }

  lemma {:induction false} StoredNames(es0: seq<Dirent>, es: seq<Dirent>, k: int, e: Dirent, i: int)
    requires Stored(es0, es, k, e) && i != 0
    ensures Names(es, i) == Names(es0, i) + if e.inum == i && e.name != DOT then 1 else 0
  {
    if k == |es0| {
      NamesAppend(es0, e, i);
    } else {
      NamesUpdate(es0, k, e, i);
    }
  }

  /** Directories other than d, and d itself but for the new slot, are as they were. */
  lemma {:induction false} StoredTree(t: seq<Inode>, d: int, es: seq<Dirent>, k: int, e: Dirent, t': seq<Inode>, b: int)
    requires Inv(t) && IsLinked(t, d) && Stored(t[d].entries, es, k, e) && 2 <= k && 0 < b < |t| == |t'|
    requires t'[d] == t[d].(entries := es) && e.name != DOT && e.name != DOTDOT && InUse(t, e.inum)
    requires IsFile(t[e.inum].kind)
    requires forall c :: 0 <= c < |t| && c != d ==>
      t'[c].kind == t[c].kind && (t[c].kind == Directory ==> t'[c] == t[c])
    ensures DirRight(t', b)
  {
    assert DirRight(t, b) && DirRight(t, d);
    if Linked(t[b]) {
      var p := t[b].entries[1].inum;
      if b != ROOT {
        var j :| NameAt(t, p, j, b);
        assert NameAt(t', p, j, b);
      }
      forall j | 2 <= j < |t'[b].entries|
        ensures SlotRight(t', b, j)
      {
        if !(b == d && j == k) {
          assert SlotRight(t, b, j);
          assert forall l :: NameAt(t', b, l, t[b].entries[j].inum) ==>
            NameAt(t, b, l, t[b].entries[j].inum) || t[b].entries[j].inum == e.inum;
        }
      }
    }
  }

  /** The promised entry for i is in d. */
  ghost predicate Entered(t: seq<Inode>, d: int, es: seq<Dirent>, k: int, name: string, i: int, t': seq<Inode>)
  {
    && 0 < d < |t| && 0 < i < |t| && Stored(t[d].entries, es, k, Dirent(i, name))
    && t' == t[d := t[d].(entries := es)][i := t[i].(promised := t[i].promised - 1)]
  }

  const CLEARED := Dirent(0, "")

  /** Slot k of d, which names i, is cleared. Directory d may lose a link; i is leaving. */
  ghost predicate Removed(t: seq<Inode>, d: int, k: int, i: int, t': seq<Inode>)
  {
    && NameAt(t, d, k, i) && InUse(t, i) && i != d && !t[i].leaving
    && t' == t[d := t[d].(entries := t[d].entries[k := CLEARED],
                          nlink := t[d].nlink - if t[i].kind == Directory then 1 else 0)][i := t[i].(leaving := true)]
  }

  /** Nothing but the dots. */
  predicate Empty(x: Inode)
  {
    forall k :: 2 <= k < |x.entries| ==> x.entries[k].inum == 0
  }

  /** Nobody's ".." is an empty directory, nor is it named but once: it has one link. */
  lemma {:induction false} EmptyHasOneLink(t: seq<Inode>, d: int, k: int, i: int)
    requires Inv(t) && NameAt(t, d, k, i) && 0 < i < |t| && t[i].kind == Directory && Empty(t[i])
    ensures i != d && i != ROOT && IsLinked(t, i) && |t[i].entries| >= 2 && t[i].entries[1].inum == d
    ensures t[i].nlink == 1 && Names(t[d].entries, i) == 1
    ensures forall b :: 0 <= b < |t| && b != d ==> Share(t[b], i) == 0
  {
    assert DirRight(t, d) && SlotRight(t, d, k) && DirRight(t, i) && NodeRight(t, i);
    forall b | 0 <= b < |t| && Linked(t[b])
      ensures forall j :: At(t[b].entries, j, i) ==> b == d && j == k
    {
      NamedOnce(t, d, k, i, b);
    }
    forall b | 0 <= b < |t| && b != d
      ensures Share(t[b], i) == 0
    {
      if Linked(t[b]) {
        NamesNone(t[b].entries, i);
      }
    }
    CountOne(t, d, i);
    assert At(t[d].entries, k, i);
    NamesOne(t[d].entries, k, i);
  }

  lemma {:induction false} NamedOnce(t: seq<Inode>, d: int, k: int, i: int, b: int)
    requires Inv(t) && NameAt(t, d, k, i) && 0 < i < |t| && t[i].kind == Directory && Empty(t[i]) && IsLinked(t, b)
    ensures forall j :: At(t[b].entries, j, i) ==> b == d && j == k
  {
    assert DirRight(t, d) && SlotRight(t, d, k) && DirRight(t, b);
    forall j | At(t[b].entries, j, i)
      ensures b == d && j == k
    {
      if j >= 2 {
        assert SlotRight(t, b, j) && NameAt(t, b, j, i);
      }
    }
  }

  /** A directory with a subdirectory i keeps a link when i goes: its own name, or for the root its "..". */
  lemma {:induction false} ParentHasTwo(t: seq<Inode>, d: int, i: int)
    requires Inv(t) && IsLinked(t, d) && IsLinked(t, i) && i != d && i != ROOT && Empty(t[i]) && |t[i].entries| >= 2
    requires t[i].entries[1].inum == d
    ensures t[d].nlink >= 2
  {
    assert DirRight(t, d) && DirRight(t, i) && NodeRight(t, d);
    assert At(t[i].entries, 1, d);
    NamesSome(t[i].entries, 1, d);
    var b, j := d, 1;
    if d != ROOT {
      b := t[d].entries[1].inum;
      j :| NameAt(t, b, j, d);
      assert DirRight(t, b) && SlotRight(t, b, j);
    }
    assert At(t[b].entries, j, d);
    NamesSome(t[b].entries, j, d);
    var x := Inode(Unused, 0, [], 0, false);
    CountUpdate(t, i, x, d);
    CountSome(t[i := x], b, d);
  }

  lemma {:induction false} RemoveKeeps(t: seq<Inode>, d: int, k: int, i: int, t': seq<Inode>)
    requires Inv(t) && Removed(t, d, k, i, t') && (t[i].kind == Directory ==> Empty(t[i]))
    ensures Inv(t')
  {
    assert DirRight(t, d) && SlotRight(t, d, k);
    if t[i].kind == Directory {
      EmptyHasOneLink(t, d, k, i);
      ParentHasTwo(t, d, i);
    }
    forall j | 0 < j < |t|
      ensures NodeRight(t', j)
    {
      RemovedTally(t, d, k, i, t', j);
    }
    forall b | 0 < b < |t|
      ensures DirRight(t', b)
    {
      RemovedTree(t, d, k, i, t', b);
    }
  }

  lemma {:induction false} RemovedTally(t: seq<Inode>, d: int, k: int, i: int, t': seq<Inode>, j: int)
    requires Inv(t) && Removed(t, d, k, i, t') && 0 < j < |t| && t[d].entries[k].name != DOT && Linked(t'[d])
    requires t[i].kind == Directory ==>
      Empty(t[i]) && IsLinked(t, i) && |t[i].entries| >= 2 && t[i].entries[1].inum == d
    ensures NodeRight(t', j)
  {
    assert NodeRight(t, j) && DirRight(t, i);
    var y := t'[d];
    CountUpdate(t, d, y, j);
    CountUpdate(t[d := y], i, t'[i], j);
    NamesUpdate(t[d].entries, k, CLEARED, j);
    if t[i].kind == Directory {
      OnlyDots(t[i].entries, d, j);
    }
  }

  lemma {:induction false} OnlyDots(es: seq<Dirent>, d: int, j: int)
    requires |es| >= 2 && es[0].name == DOT && es[1] == Dirent(d, DOTDOT)
    requires (forall k :: 2 <= k < |es| ==> es[k].inum == 0) && j != 0
    ensures Names(es, j) == if j == d then 1 else 0
  {
    if j == d {
      assert At(es, 1, d);
      NamesOne(es, 1, d);
    } else {
      NamesNone(es, j);
    }
  }

  lemma {:induction false} RemovedTree(t: seq<Inode>, d: int, k: int, i: int, t': seq<Inode>, b: int)
    requires Inv(t) && Removed(t, d, k, i, t') && 0 < b < |t| && Linked(t'[d]) && SlotRight(t, d, k)
    requires t[i].kind == Directory ==> Empty(t[i])
    ensures DirRight(t', b)
  {
    assert DirRight(t, b);
    if Linked(t'[b]) {
      if b != ROOT {
        var p := t[b].entries[1].inum;
        var j :| NameAt(t, p, j, b);
        assert NameAt(t', p, j, b);
      }
      forall j | 2 <= j < |t'[b].entries| && t'[b].entries[j].inum != 0
        ensures SlotRight(t', b, j)
      {
        assert SlotRight(t, b, j);
        assert NameAt(t, b, j, t[b].entries[j].inum);
        assert forall l :: NameAt(t', b, l, t[b].entries[j].inum) ==> NameAt(t, b, l, t[b].entries[j].inum);
      }
    }
  }

  /** sys_unlink's second part: i loses the link its entry stood for. */
  lemma {:induction false} LeftKeeps(t: seq<Inode>, i: int, t': seq<Inode>)
    requires Inv(t) && InUse(t, i) && t[i].leaving && t' == t[i := t[i].(nlink := t[i].nlink - 1, leaving := false)]
    ensures Inv(t') && !Linked(t'[i])
  {
    assert NodeRight(t, i) && DirRight(t, i);
    if t[i].kind == Directory {
      forall b | 0 <= b < |t|
        ensures Share(t[b], i) == 0
      {
        if Linked(t[b]) {
          NotNamed(t, b, i);
          NamesNone(t[b].entries, i);
        }
      }
      CountNone(t, i);
    }
    forall j | 0 < j < |t|
      ensures NodeRight(t', j) && DirRight(t', j)
    {
      assert NodeRight(t, j) && DirRight(t, j);
      CountUpdate(t, i, t'[i], j);
      UnlinkedTree(t, i, t'[i], t', j);
    }
  }

  lemma {:induction false} NotNamed(t: seq<Inode>, b: int, i: int)
    requires Inv(t) && IsLinked(t, b) && InUse(t, i) && t[i].kind == Directory && !Linked(t[i])
    ensures forall j :: !At(t[b].entries, j, i)
  {
    assert DirRight(t, b);
    forall j
      ensures !At(t[b].entries, j, i)
    {
      if 2 <= j < |t[b].entries| {
        assert SlotRight(t, b, j);
      }
    }
  }

  /** Changing an inode that is not a linked directory, nor becomes one, does not touch the others. */
  lemma {:induction false} UnlinkedTree(t: seq<Inode>, i: int, x: Inode, t': seq<Inode>, b: int)
    requires Inv(t) && 0 < i < |t| && !Linked(t[i]) && t' == t[i := x] && !Linked(x) && 0 < b < |t|
    requires x.kind == t[i].kind || (x.kind == Unused && Count(t, i) == 0)
    requires x.entries == t[i].entries && x.promised == t[i].promised
    ensures DirRight(t', b)
  {
    assert DirRight(t, b);
    if Linked(t[b]) {
      if b != ROOT {
        var p := t[b].entries[1].inum;
        var j :| NameAt(t, p, j, b);
        assert NameAt(t', p, j, b);
      }
      forall j | 2 <= j < |t[b].entries| && t[b].entries[j].inum != 0
        ensures SlotRight(t', b, j)
      {
        assert SlotRight(t, b, j);
        if t[b].entries[j].inum == i {
          assert At(t[b].entries, j, i);
          NamesSome(t[b].entries, j, i);
          CountSome(t, b, i);
        }
        assert forall l :: NameAt(t', b, l, t[b].entries[j].inum) ==> NameAt(t, b, l, t[b].entries[j].inum);
      }
    }
  }

  /** iput frees an inode with no links; nothing names it. */
  lemma {:induction false} FreeKeeps(t: seq<Inode>, i: int, t': seq<Inode>)
    requires Inv(t) && InUse(t, i) && t[i].nlink == 0 && !t[i].leaving && t' == t[i := t[i].(kind := Unused)]
    ensures Inv(t')
  {
    assert NodeRight(t, i) && DirRight(t, i);
    forall j | 0 < j < |t|
      ensures NodeRight(t', j) && DirRight(t', j)
    {
      assert NodeRight(t, j);
      CountUpdate(t, i, t'[i], j);
      UnlinkedTree(t, i, t'[i], t', j);
    }
  }

  /** Nothing names a free inode. */
  lemma {:induction false} FreeNotNamed(t: seq<Inode>, n: int, d: int)
    requires Inv(t) && 0 < n < |t| && t[n].kind == Unused && IsLinked(t, d)
    ensures forall j :: !NameAt(t, d, j, n)
  {
    assert NodeRight(t, n) && DirRight(t, d);
    forall j
      ensures !NameAt(t, d, j, n)
    {
      if 2 <= j < |t[d].entries| {
        assert SlotRight(t, d, j);
      }
    }
  }

  function NewInode(kind: Kind, n: int, d: int): (x: Inode)
  {
    Inode(kind, 1, if kind == Directory then [Dirent(n, DOT), Dirent(d, DOTDOT)] else [], 0, false)
  }

  /** create: inode n, its dots if it is a directory, and its entry in d, which its ".." gives a link. */
  ghost predicate Created(t: seq<Inode>, d: int, es: seq<Dirent>, k: int, name: string, n: int, kind: Kind,
                          t': seq<Inode>)
  {
    && 0 < n < |t| && t[n].kind == Unused && 0 < d < |t| && t[d].kind == Directory && kind != Unused
    && Stored(t[d].entries, es, k, Dirent(n, name))
    && t' == t[n := NewInode(kind, n, d)][d := t[d].(entries := es,
                                                     nlink := t[d].nlink + if kind == Directory then 1 else 0)]
  }

  lemma {:induction false} CreateKeeps(t: seq<Inode>, d: int, es: seq<Dirent>, k: int, name: string, n: int, kind: Kind,
                                       t': seq<Inode>)
    requires Inv(t) && IsLinked(t, d) && 2 <= k && Created(t, d, es, k, name, n, kind, t') && name != DOT
    requires name != DOTDOT
    ensures Inv(t')
  {
    forall j | 0 < j < |t|
      ensures NodeRight(t', j)
    {
      CreatedTally(t, d, es, k, name, n, kind, t', j);
    }
    forall b | 0 < b < |t|
      ensures DirRight(t', b)
    {
      CreatedTree(t, d, es, k, name, n, kind, t', b);
    }
  }

  lemma {:induction false} CreatedTally(t: seq<Inode>, d: int, es: seq<Dirent>, k: int, name: string, n: int,
                                        kind: Kind, t': seq<Inode>, j: int)
    requires Inv(t) && IsLinked(t, d) && Created(t, d, es, k, name, n, kind, t') && name != DOT && 0 < j < |t|
    ensures NodeRight(t', j)
  {
    assert NodeRight(t, j) && DirRight(t, d);
    var x := NewInode(kind, n, d);
    CountUpdate(t, n, x, j);
    CountUpdate(t[n := x], d, t'[d], j);
    StoredNames(t[d].entries, es, k, Dirent(n, name), j);
    if kind == Directory {
      OnlyDots(x.entries, d, j);
    }
  }

  lemma {:induction false} CreatedTree(t: seq<Inode>, d: int, es: seq<Dirent>, k: int, name: string, n: int, kind: Kind,
                                       t': seq<Inode>, b: int)
    requires Inv(t) && IsLinked(t, d) && 2 <= k && Created(t, d, es, k, name, n, kind, t') && name != DOT
    requires name != DOTDOT && 0 < b < |t|
    ensures DirRight(t', b)
  {
    assert DirRight(t, b) && DirRight(t, d);
    FreeNotNamed(t, n, d);
    assert NameAt(t', d, k, n);
    if b != n && Linked(t[b]) {
      if b != ROOT {
        var p := t[b].entries[1].inum;
        var j :| NameAt(t, p, j, b);
        assert NameAt(t', p, j, b);
      }
      forall j | 2 <= j < |t'[b].entries|
        ensures SlotRight(t', b, j)
      {
        CreatedSlot(t, d, es, k, name, n, kind, t', b, j);
      }
    }
  }

  lemma {:induction false} CreatedSlot(t: seq<Inode>, d: int, es: seq<Dirent>, k: int, name: string, n: int, kind: Kind,
                                       t': seq<Inode>, b: int, j: int)
    requires Inv(t) && IsLinked(t, d) && 2 <= k && Created(t, d, es, k, name, n, kind, t') && name != DOT
    requires name != DOTDOT
    requires IsLinked(t, b) && b != n && 2 <= j < |t'[b].entries| && DirRight(t, b) && (forall l :: !NameAt(t, d, l, n))
    ensures SlotRight(t', b, j)
  {
    if b == d && j == k {
      assert forall l :: NameAt(t', d, l, n) ==> l == k || NameAt(t, d, l, n);
    } else {
      assert SlotRight(t, b, j);
      assert forall l :: NameAt(t', b, l, t[b].entries[j].inum) ==>
        NameAt(t, b, l, t[b].entries[j].inum) || (b == d && l == k);
    }
  }

  // Exactly when they stay right.

  /** An entry stored in directory d leaves the promised file's count right, and the invariant true, just when d
      is still linked. */
  lemma EntryExactly(t: seq<Inode>, d: int, es: seq<Dirent>, k: int, name: string, i: int, t': seq<Inode>)
    requires Inv(t) && 0 < d < |t| && t[d].kind == Directory && 0 < i < |t| && IsFile(t[i].kind) && t[i].promised > 0
    requires name != DOT && name != DOTDOT && 2 <= k && Entered(t, d, es, k, name, i, t')
    ensures Tally(t', i) <==> Linked(t[d])
    ensures Inv(t') <==> Linked(t[d])
  {
    assert NodeRight(t, i);
    CountUpdate(t, d, t[d].(entries := es), i);
    CountUpdate(t[d := t[d].(entries := es)], i, t'[i], i);
    StoredNames(t[d].entries, es, k, Dirent(i, name), i);
    if Linked(t[d]) {
      EntryKeeps(t, d, es, k, name, i, t');
    } else {
      assert !NodeRight(t', i);
    }
  }

  /** So does create, whatever it creates. */
  lemma CreateExactly(t: seq<Inode>, d: int, es: seq<Dirent>, k: int, name: string, n: int, kind: Kind, t': seq<Inode>)
    requires Inv(t) && Created(t, d, es, k, name, n, kind, t') && name != DOT && name != DOTDOT && 2 <= k
    ensures Inv(t') <==> Linked(t[d])
  {
    if Linked(t[d]) {
      CreateKeeps(t, d, es, k, name, n, kind, t');
    } else {
      OrphanTree(t, d, es, k, name, n, kind, t');
    }
  }

  /** A directory that has been unlinked is not right with an entry in it: if a subdirectory's ".." has given it a
      link again, no directory names it. */
  lemma OrphanTree(t: seq<Inode>, d: int, es: seq<Dirent>, k: int, name: string, n: int, kind: Kind, t': seq<Inode>)
    requires Inv(t) && Created(t, d, es, k, name, n, kind, t') && 2 <= k && !Linked(t[d])
    ensures !DirRight(t', d)
  {
    assert DirRight(t, d) && es[k] == Dirent(n, name);
    if Linked(t'[d]) {
      var p := es[1].inum;
      forall j
        ensures !NameAt(t', p, j, d)
      {
        if IsLinked(t, p) {
          NotNamed(t, p, d);
          assert DirRight(t, p);
          assert !At(t[p].entries, j, d);
          assert 2 <= j < |t[p].entries| ==> SlotRight(t, p, j);
        }
      }
    }
  }

  /** A file created in an unlinked directory has a link that no linked directory holds; with a directory the
      counts agree, and it is the tree that is wrong. */
  lemma OrphanCounts(t: seq<Inode>, d: int, es: seq<Dirent>, k: int, name: string, n: int, kind: Kind, t': seq<Inode>)
    requires Inv(t) && Created(t, d, es, k, name, n, kind, t') && name != DOT && !Linked(t[d]) && !t[d].leaving
    requires |t[d].entries| >= 2 && t[d].entries[1].inum != n && 2 <= k
    ensures Tally(t', n) <==> kind == Directory
    ensures Linked(t'[d]) <==> kind == Directory
  {
    assert NodeRight(t, n) && DirRight(t, d) && NodeRight(t, d);
    var x := NewInode(kind, n, d);
    CountUpdate(t, n, x, n);
    CountUpdate(t[n := x], d, t'[d], n);
    StoredNames(t[d].entries, es, k, Dirent(n, name), n);
    OnlyDots(t[d].entries, t[d].entries[1].inum, n);
    if kind == Directory {
      OnlyDots(x.entries, d, n);
    }
  }

  datatype UnlinkResult = Removing(inum: int) | Refused | PanicNlink
  datatype CreateResult = Made(inum: int) | Found(inum: int) | Failed | PanicNoInodes

  class Tree {
    var inodes: seq<Inode>

    ghost predicate Valid()
      reads this
    {
      Inv(inodes)
    }

    /** mkfs's tree before it adds files: a root whose dots both name it, with one link. */
    constructor (ninodes: int)
      requires ninodes > ROOT
      ensures Valid() && |inodes| == ninodes && inodes[ROOT].entries == [Dirent(ROOT, DOT), Dirent(ROOT, DOTDOT)]
      ensures forall i :: 0 < i < ninodes && i != ROOT ==> inodes[i].kind == Unused
    {
      var none := Inode(Unused, 0, [], 0, false);
      var root := Inode(Directory, 1, [Dirent(ROOT, DOT), Dirent(ROOT, DOTDOT)], 0, false);
      inodes := seq(ninodes, i requires 0 <= i < ninodes => if i == ROOT then root else none);
      new;
      ghost var t := inodes;
      forall i | 0 < i < ninodes
        ensures NodeRight(t, i)
      {
        CountOne(t, ROOT, i);
        OnlyDots(root.entries, ROOT, i);
      }
    }

    /** dirlookup: the first used slot with the name, -1 if there is none. */
    method DirLookup(d: int, name: string) returns (k: int)
      requires 0 <= d < |inodes|
      ensures -1 <= k < |inodes[d].entries|
      ensures k >= 0 ==> inodes[d].entries[k].inum != 0 && inodes[d].entries[k].name == name
      ensures forall j :: 0 <= j < (if k >= 0 then k else |inodes[d].entries|) ==>
        inodes[d].entries[j].inum == 0 || inodes[d].entries[j].name != name
    {
      var es := inodes[d].entries;
      k := 0;
      while k < |es| && (es[k].inum == 0 || es[k].name != name)
        invariant 0 <= k <= |es| && forall j :: 0 <= j < k ==> es[j].inum == 0 || es[j].name != name
      {
        k := k + 1;
      }
      if k == |es| {
        k := -1;
      }
    }

    /** dirlink: -1 if the name is there, else the entry goes in the first free slot, or at the end. */
    method DirLink(d: int, name: string, inum: int) returns (k: int, ghost es: seq<Dirent>)
      requires 0 <= d < |inodes|
      modifies this
      ensures if exists j :: 0 <= j < |old(inodes)[d].entries| &&
                             old(inodes)[d].entries[j].inum != 0 && old(inodes)[d].entries[j].name == name
              then k == -1 && inodes == old(inodes)
              else Stored(old(inodes)[d].entries, es, k, Dirent(inum, name)) &&
                   inodes == old(inodes)[d := old(inodes)[d].(entries := es)] &&
                   forall j :: 0 <= j < k ==> old(inodes)[d].entries[j].inum != 0
    {
      var found := DirLookup(d, name);
      es := [];
      if found >= 0 {
        return -1, [];
      }
      var now := inodes[d].entries;
      k := 0;
      while k < |now| && now[k].inum != 0
        invariant 0 <= k <= |now| && forall j :: 0 <= j < k ==> now[j].inum != 0
      {
        k := k + 1;
      }
      var next := if k == |now| then now + [Dirent(inum, name)] else now[k := Dirent(inum, name)];
      es := next;
      inodes := inodes[d := inodes[d].(entries := next)];
    }

    /** isdirempty. */
    method IsDirEmpty(d: int) returns (empty: bool)
      requires 0 <= d < |inodes|
      ensures empty <==> Empty(inodes[d])
    {
      var k := 2;
      while k < |inodes[d].entries|
        invariant 2 <= k && forall j :: 2 <= j < k && j < |inodes[d].entries| ==> inodes[d].entries[j].inum == 0
      {
        if inodes[d].entries[k].inum != 0 {
          return false;
        }
        k := k + 1;
      }
      return true;
    }

    /** sys_link as far as unlocking ip: directories are refused. */
    method LinkBegin(i: int) returns (ok: bool)
      requires Valid() && InUse(inodes, i) && !inodes[i].leaving
      modifies this
      ensures Valid() && ok == IsFile(old(inodes)[i].kind)
      ensures inodes == if ok then
        old(inodes)[i := old(inodes)[i].(nlink := old(inodes)[i].nlink + 1, promised := old(inodes)[i].promised + 1)]
        else old(inodes)
    {
      if inodes[i].kind == Directory {
        return false;
      }
      ghost var t := inodes;
      assert NodeRight(t, i);
      inodes := inodes[i := inodes[i].(nlink := inodes[i].nlink + 1, promised := inodes[i].promised + 1)];
      FileKeeps(t, i, inodes[i], inodes);
      return true;
    }

    /** sys_link's dirlink. The directory may have been unlinked since it was looked up; then, and only then, the
        invariant is lost. */
    method LinkEntry(d: int, name: string, i: int) returns (ok: bool)
      requires Valid() && IsDirectory(inodes, d) && InUse(inodes, i) && IsFile(inodes[i].kind) && inodes[i].promised > 0
      modifies this
      ensures ok <==> !exists k :: IsNamed(old(inodes), d, k, name)
      ensures !ok ==> inodes == old(inodes)
      ensures ok ==> exists k, es :: Entered(old(inodes), d, es, k, name, i, inodes)
      ensures ok ==> (Valid() <==> Linked(old(inodes)[d])) && (Tally(inodes, i) <==> Linked(old(inodes)[d]))
    {
      ghost var t := inodes;
      assert DirRight(t, d);
      var k; ghost var es;
      k, es := DirLink(d, name, i);
      LookupFinds(t, d, name);
      if k < 0 {
        return false;
      }
      assert t[d].entries[0].name == DOT && t[d].entries[1].name == DOTDOT;
      inodes := inodes[i := inodes[i].(promised := inodes[i].promised - 1)];
      assert Entered(t, d, es, k, name, i, inodes);
      EntryExactly(t, d, es, k, name, i, inodes);
      return true;
    }

    /** sys_link's way out: the link is taken back. */
    method LinkUndo(i: int)
      requires Valid() && InUse(inodes, i) && IsFile(inodes[i].kind) && inodes[i].promised > 0 && !inodes[i].leaving
      modifies this
      ensures Valid()
      ensures inodes == old(inodes)[i := old(inodes)[i].(nlink := old(inodes)[i].nlink - 1,
                                                         promised := old(inodes)[i].promised - 1)]
    {
      ghost var t := inodes;
      inodes := inodes[i := inodes[i].(nlink := inodes[i].nlink - 1, promised := inodes[i].promised - 1)];
      FileKeeps(t, i, inodes[i], inodes);
    }

    /** sys_unlink as far as unlocking dp. */
    method UnlinkEntry(d: int, name: string) returns (r: UnlinkResult)
      requires Valid() && 0 < d < |inodes| && inodes[d].kind == Directory && !inodes[d].leaving
      requires forall k :: 2 <= k < |inodes[d].entries| && 0 < inodes[d].entries[k].inum < |inodes| ==>
        !inodes[inodes[d].entries[k].inum].leaving
      modifies this
      ensures Valid() && !r.PanicNlink? && (r.Refused? ==> inodes == old(inodes))
      ensures r.Removing? <==>
        name != DOT && name != DOTDOT && exists k :: IsNamed(old(inodes), d, k, name) && MayGo(old(inodes), d, k)
      ensures r.Removing? ==> exists k :: IsNamed(old(inodes), d, k, name) && Removed(old(inodes), d, k, r.inum, inodes)
    {
      if name == DOT || name == DOTDOT {
        return Refused;
      }
      ghost var t := inodes;
      assert DirRight(t, d);
      var k := DirLookup(d, name);
      if k < 0 {
        return Refused;
      }
      var i := inodes[d].entries[k].inum;
      assert SlotRight(t, d, k) && NodeRight(t, i);
      Named(t, d, k, i);
      assert IsNamed(t, d, k, name) && (forall j :: IsNamed(t, d, j, name) ==> j == k);
      if inodes[i].nlink < 1 {
        return PanicNlink;
      }
      if inodes[i].kind == Directory {
        var empty := IsDirEmpty(i);
        if !empty {
          return Refused;
        }
      }
      var less := if inodes[i].kind == Directory then 1 else 0;
      inodes := inodes[d := inodes[d].(entries := inodes[d].entries[k := CLEARED], nlink := inodes[d].nlink - less)];
      inodes := inodes[i := inodes[i].(leaving := true)];
      RemoveKeeps(t, d, k, i, inodes);
      assert Removed(t, d, k, i, inodes);
      return Removing(i);
    }

    /** sys_unlink's last part. */
    method UnlinkDone(i: int)
      requires Valid() && InUse(inodes, i) && inodes[i].leaving
      modifies this
      ensures Valid()
      ensures inodes == old(inodes)[i := old(inodes)[i].(nlink := old(inodes)[i].nlink - 1, leaving := false)]
    {
      ghost var t := inodes;
      inodes := inodes[i := inodes[i].(nlink := inodes[i].nlink - 1, leaving := false)];
      LeftKeeps(t, i, inodes);
    }

    /** iput's freeing of an inode without links. */
    method Free(i: int)
      requires Valid() && InUse(inodes, i) && inodes[i].nlink == 0 && !inodes[i].leaving
      modifies this
      ensures Valid() && inodes == old(inodes)[i := old(inodes)[i].(kind := Unused)]
    {
      ghost var t := inodes;
      inodes := inodes[i := inodes[i].(kind := Unused)];
      FreeKeeps(t, i, inodes);
    }

    /** create. The directory may have been unlinked since it was looked up; then, and only then, the invariant
        is lost. */
    method Create(d: int, name: string, kind: Kind) returns (r: CreateResult)
      requires Valid() && IsDirectory(inodes, d) && kind != Unused
      modifies this
      ensures r.Made? ==> (Valid() <==> Linked(old(inodes)[d]))
      ensures (r.Found? || r.Failed? || r.PanicNoInodes?) ==> inodes == old(inodes)
      ensures r.Found? <==>
        kind == File &&
        exists k :: IsNamed(old(inodes), d, k, name) && old(inodes)[old(inodes)[d].entries[k].inum].kind == File
      ensures r.Found? ==> exists k :: IsNamed(old(inodes), d, k, name) && r.inum == old(inodes)[d].entries[k].inum
      ensures r.Found? || r.Failed? <==> exists k :: IsNamed(old(inodes), d, k, name)
      ensures r.Made? ==> exists k, es :: Created(old(inodes), d, es, k, name, r.inum, kind, inodes)
      ensures r.PanicNoInodes? ==> forall i :: 0 < i < |inodes| ==> inodes[i].kind != Unused
    {
      ghost var t := inodes;
      assert DirRight(t, d);
      var k := DirLookup(d, name);
      if k >= 0 {
        var i := inodes[d].entries[k].inum;
        LookupFinds(t, d, name);
        assert IsNamed(t, d, k, name);
        if kind == File && inodes[i].kind == File {
          return Found(i);
        }
        return Failed;
      }
      LookupFinds(t, d, name);
      var n := Ialloc();
      if n == 0 {
        return PanicNoInodes;
      }
      ghost var j, es := Fill(d, name, n, kind);
      assert t[d].entries[0].name == DOT && t[d].entries[1].name == DOTDOT;
      CreateExactly(t, d, es, j, name, n, kind, inodes);
      return Made(n);
    }

    /** create's last part: the inode, its dots if it is a directory, and its entry. */
    method Fill(d: int, name: string, n: int, kind: Kind) returns (ghost j: int, ghost es: seq<Dirent>)
      requires 0 < d < |inodes| && inodes[d].kind == Directory && 0 < n < |inodes| && inodes[n].kind == Unused
      requires kind != Unused
      requires !exists k ::
        0 <= k < |inodes[d].entries| && inodes[d].entries[k].inum != 0 && inodes[d].entries[k].name == name
      modifies this
      ensures Created(old(inodes), d, es, j, name, n, kind, inodes)
      ensures forall k :: 0 <= k < j ==> old(inodes)[d].entries[k].inum != 0
    {
      ghost var t := inodes;
      inodes := inodes[n := Inode(kind, 1, [], 0, false)];
      var k;
      if kind == Directory {
        inodes := inodes[d := inodes[d].(nlink := inodes[d].nlink + 1)];
        k, es := DirLink(n, DOT, n);
        k, es := DirLink(n, DOTDOT, d);
      }
      assert inodes[n] == NewInode(kind, n, d);
      k, es := DirLink(d, name, n);
      j := k;
      assert inodes == t[n := NewInode(kind, n, d)][d := t[d].(entries := es,
          nlink := t[d].nlink + if kind == Directory then 1 else 0)];
    }

    /** ialloc: the first free inode, 0 if there is none. */
    method Ialloc() returns (n: int)
      requires |inodes| > 0
      ensures n == 0 ==> forall i :: 0 < i < |inodes| ==> inodes[i].kind != Unused
      ensures n != 0 ==>
        0 < n < |inodes| && inodes[n].kind == Unused && forall i :: 0 < i < n ==> inodes[i].kind != Unused
    {
      n := 1;
      while n < |inodes| && inodes[n].kind != Unused
        invariant 1 <= n <= |inodes| && forall i :: 0 < i < n ==> inodes[i].kind != Unused
      {
        n := n + 1;
      }
      if n == |inodes| {
        n := 0;
      }
    }
  }

  /** Slot k is the one dirlookup finds for the name in d. */
  predicate IsNamed(t: seq<Inode>, d: int, k: int, name: string)
  {
    && 0 <= d < |t| && 0 <= k < |t[d].entries| && t[d].entries[k].inum != 0 && t[d].entries[k].name == name
    && 0 <= t[d].entries[k].inum < |t|
    && forall j :: 0 <= j < k ==> t[d].entries[j].inum == 0 || t[d].entries[j].name != name
  }

  /** mkfs's tree with one directory d in the root. */
  method TreeWithDirectory() returns (tree: Tree, d: int)
    ensures fresh(tree) && tree.Valid() && |tree.inodes| == 4 && 2 <= d <= 3
    ensures tree.inodes[d] == NewInode(Directory, d, ROOT)
    ensures tree.inodes[5 - d].kind == Unused && !tree.inodes[ROOT].leaving
    ensures tree.inodes[ROOT].entries == [Dirent(ROOT, DOT), Dirent(ROOT, DOTDOT), Dirent(d, "d")]
  {
    tree := new Tree(4);
    assert "d"[0] != "."[0];
    assert tree.inodes[2].kind == Unused;
    ghost var t := tree.inodes;
    var made := tree.Create(ROOT, "d", Directory);
    d := made.inum;
    ghost var k, es :| Created(t, ROOT, es, k, "d", d, Directory, tree.inodes);
  }

  /** The same with a file f as well. */
  method TreeWithFile() returns (tree: Tree, d: int, f: int)
    ensures fresh(tree) && tree.Valid() && |tree.inodes| == 4 && 2 <= d <= 3 && f == 5 - d
    ensures tree.inodes[d] == NewInode(Directory, d, ROOT) && tree.inodes[f] == NewInode(File, f, ROOT)
    ensures !tree.inodes[ROOT].leaving
    ensures tree.inodes[ROOT].entries == [Dirent(ROOT, DOT), Dirent(ROOT, DOTDOT), Dirent(d, "d"), Dirent(f, "f")]
  {
    tree, d := TreeWithDirectory();
    assert "f"[0] != "."[0] && "f"[0] != "d"[0];
    ghost var t := tree.inodes;
    var made := tree.Create(ROOT, "f", File);
    f := made.inum;
    ghost var k, es :| Created(t, ROOT, es, k, "f", f, File, tree.inodes);
  }

  /** The condition matters. In such a tree sys_link promises the file a second name, sys_unlink removes the
      directory, and sys_link's entry is stored in it: the file is left with a link too many. */
  method UnlinkedDirectoryMiscounts() returns (tree: Tree, f: int)
    ensures 0 < f < |tree.inodes| && !tree.Valid() && !Tally(tree.inodes, f)
  {
    var d;
    tree, d, f := TreeWithFile();
    var ok := tree.LinkBegin(f);
    ghost var t := tree.inodes;
    assert "d"[0] != "."[0] && "g"[0] != "."[0];
    assert IsNamed(t, ROOT, 2, "d") && MayGo(t, ROOT, 2);
    var gone := tree.UnlinkEntry(ROOT, "d");
    tree.UnlinkDone(d);
    ok := tree.LinkEntry(d, "g", f);
  }

  /** sys_unlink takes files and empty directories. */
  predicate MayGo(t: seq<Inode>, d: int, k: int)
    requires 0 <= d < |t| && 0 <= k < |t[d].entries| && 0 <= t[d].entries[k].inum < |t|
  {
    var x := t[t[d].entries[k].inum];
    x.kind == Directory ==> Empty(x)
  }

  /** dirlookup finds a name exactly when some used slot has it. */
  lemma {:induction false} LookupFinds(t: seq<Inode>, d: int, name: string)
    requires Inv(t) && IsDirectory(t, d)
    ensures forall j :: 0 <= j < |t[d].entries| ==> 0 <= t[d].entries[j].inum < |t|
    ensures (exists k :: IsNamed(t, d, k, name)) <==>
      exists j :: 0 <= j < |t[d].entries| && t[d].entries[j].inum != 0 && t[d].entries[j].name == name
  {
    assert DirRight(t, d);
    forall j | 0 <= j < |t[d].entries|
      ensures 0 <= t[d].entries[j].inum < |t|
    {
      assert 2 <= j && Linked(t[d]) ==> SlotRight(t, d, j);
    }
    var k := 0;
    while k < |t[d].entries| && (t[d].entries[k].inum == 0 || t[d].entries[k].name != name)
      invariant 0 <= k <= |t[d].entries|
      invariant forall j :: 0 <= j < k ==> t[d].entries[j].inum == 0 || t[d].entries[j].name != name
    {
      k := k + 1;
    }
    assert k < |t[d].entries| ==> IsNamed(t, d, k, name);
  }

  /** A named inode has a link. */
  lemma {:induction false} Named(t: seq<Inode>, d: int, k: int, i: int)
    requires Inv(t) && NameAt(t, d, k, i) && InUse(t, i)
    ensures t[i].nlink >= 1
  {
    assert DirRight(t, d) && SlotRight(t, d, k) && NodeRight(t, i);
    assert At(t[d].entries, k, i);
    NamesSome(t[d].entries, k, i);
    CountSome(t, d, i);
  }
}
