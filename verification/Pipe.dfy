/** pipe.c: the ring buffer. Each method is what pipewrite, piperead or pipeclose does between acquiring
    p->lock and releasing it or sleeping; any sequence of calls, by any readers and writers, is a run. */
module Pipe {
  import opened Params

  const PIPESIZE := 512

  type Byte = int

  /** `stored` is every byte ever put in and `taken` every byte ever read out; the counters wrap. */
  class Pipe {
    const data: array<Byte>
    var nread: int
    var nwrite: int
    var readopen: bool
    var writeopen: bool
    ghost var stored: seq<Byte>
    ghost var taken: seq<Byte>

    ghost predicate Valid()
      reads this, data
    {
      && data.Length == PIPESIZE
      && nwrite == |stored| % UINT && nread == |taken| % UINT
      && |taken| <= |stored| <= |taken| + PIPESIZE
      && taken == stored[..|taken|]
      && forall i :: |taken| <= i < |stored| ==> data[i % PIPESIZE] == stored[i]
    }

    /** pipealloc's pipe. */
    constructor ()
      ensures Valid() && fresh(data) && stored == [] && readopen && writeopen
    {
      data := new Byte[PIPESIZE](_ => 0);
      nread, nwrite, readopen, writeopen := 0, 0, true, true;
      stored, taken := [], [];
    }

    /** pipewrite, from byte i of addr until all n are in or the pipe is full. */
    method WriteBurst(addr: seq<Byte>, i: nat) returns (i': nat)
      requires Valid() && i <= |addr|
      modifies this`nwrite, this`stored, data
      ensures Valid() && i <= i' <= |addr|
      ensures stored == old(stored) + addr[i..i']
      ensures i' == |addr| || |stored| == |taken| + PIPESIZE
    {
      i' := i;
      Counters(|stored|, |taken|);
      while i' < |addr| && nwrite != (nread + PIPESIZE) % UINT
        invariant Valid() && i <= i' <= |addr| && stored == old(stored) + addr[i..i']
        invariant nwrite == (nread + PIPESIZE) % UINT <==> |stored| == |taken| + PIPESIZE
      {
        PutByte(addr[i']);
        Counters(|stored|, |taken|);
        i' := i' + 1;
        assert addr[i..i'] == addr[i..i' - 1] + [addr[i' - 1]];
      }
    }

    /** p->data[p->nwrite++ % PIPESIZE] = b */
    method PutByte(b: Byte)
      requires Valid() && |stored| < |taken| + PIPESIZE
      modifies this`nwrite, this`stored, data
      ensures Valid() && stored == old(stored) + [b]
    {
      Counters(|stored|, |taken|);
      OtherSlots(|stored|, |taken|);
      data[nwrite % PIPESIZE] := b;
      nwrite := (nwrite + 1) % UINT;
      stored := stored + [b];
    }

    /** piperead's copying loop: at most n bytes, the oldest first. */
    method ReadBurst(n: nat) returns (out: seq<Byte>)
      requires Valid()
      modifies this`nread, this`taken
      ensures Valid() && taken == old(taken) + out
      ensures |out| == if |stored| - |old(taken)| < n then |stored| - |old(taken)| else n
    {
      out := [];
      Counters(|stored|, |taken|);
      while |out| < n && nread != nwrite
        invariant Valid() && taken == old(taken) + out && |out| <= n
        invariant nread == nwrite <==> |stored| == |taken|
      {
        var b := GetByte();
        out := out + [b];
        Counters(|stored|, |taken|);
      }
    }

    /** p->data[p->nread++ % PIPESIZE] */
    method GetByte() returns (b: Byte)
      requires Valid() && |taken| < |stored|
      modifies this`nread, this`taken
      ensures Valid() && taken == old(taken) + [b]
    {
      Counters(|stored|, |taken|);
      b := data[nread % PIPESIZE];
      nread := (nread + 1) % UINT;
      taken := taken + [b];
    }
  }

  /** The counters, though they wrap, tell full and empty apart from everything else, and pick the slot. */
  lemma Counters(w: nat, r: nat)
    requires r <= w <= r + PIPESIZE
    ensures w % UINT == (r % UINT + PIPESIZE) % UINT <==> w == r + PIPESIZE
    ensures w % UINT == r % UINT <==> w == r
    ensures w % UINT % PIPESIZE == w % PIPESIZE && r % UINT % PIPESIZE == r % PIPESIZE
    ensures (w % UINT + 1) % UINT == (w + 1) % UINT && (r % UINT + 1) % UINT == (r + 1) % UINT
  {
    Wrapped(w);
    Wrapped(r);
    SameCount(r, w);
    SameCount(w, r + PIPESIZE);
    WrapAdd(r, PIPESIZE);
  }

  lemma SameCount(a: nat, b: nat)
    requires a <= b < a + UINT
    ensures a % UINT == b % UINT <==> a == b
  {
  }

  lemma WrapAdd(a: nat, b: nat)
    ensures (a % UINT + b) % UINT == (a + b) % UINT
  {
  }

  lemma Wrapped(n: nat)
    ensures n % UINT % PIPESIZE == n % PIPESIZE && (n % UINT + 1) % UINT == (n + 1) % UINT
  {
    var q, m := n / UINT, n % UINT;
    assert n == q * 0x80_0000 * PIPESIZE + m;
  }

  lemma OtherSlots(w: nat, r: nat)
    requires w < r + PIPESIZE
    ensures forall i :: r <= i < w ==> i % PIPESIZE != w % PIPESIZE
  {
  }
}
