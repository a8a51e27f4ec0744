/** The on-disk redo log: block geometry, the header block, and what recovery makes of a disk image.

    A block is 512 bytes, seen here as 128 words of 32 bits, which is how the log header
    (an int n followed by int block[LOGSIZE]) is laid over it. */
module LogDisk {
  import opened Params

  const WORDS := 128
  const START := 2  // log.start: boot block 0, super block 1, then the log

  type Word = nat
  type Block = seq<Word>
  type Image = seq<Block>

  /** The log occupies blocks START .. START+nlog: one header block and nlog-1 data blocks. */
  predicate Home(nlog: nat, b: nat)
  {
    b < START || START + nlog <= b
  }

  /** The image holds the whole log, and its header block counts no more blocks than it can name. */
  predicate Geometry(nlog: nat, d: Image)
  {
    1 <= nlog && START + nlog <= |d| && |d[START]| == WORDS && d[START][0] <= LOGSIZE
  }

  /** What write_head leaves in the header block: n and the first n block numbers are overwritten,
      the rest of the block keeps whatever it held. */
  function EncodeHeader(prior: Block, lh: seq<Word>): (b: Block)
    requires |lh| <= LOGSIZE && |prior| == WORDS
    ensures |b| == WORDS && b[0] == |lh|
    ensures DecodeHeader(b) == lh
    ensures forall i :: 1 + |lh| <= i < WORDS ==> b[i] == prior[i]
  {
    var b: seq<Word> := [|lh|] + lh + prior[1 + |lh|..];
    assert b[0] == |lh|;
    b
  }

  /** read_head: the first n of the block numbers stored in the header block. */
  function DecodeHeader(b: Block): (lh: seq<Word>)
    requires |b| == WORDS && b[0] <= LOGSIZE
  {
    b[1..1 + b[0]]
  }

  function Header(nlog: nat, d: Image): (lh: seq<Word>)
    requires Geometry(nlog, d)
  {
    DecodeHeader(d[START])
  }

  /** Every block the list names is a home block of the disk, and its log data block exists. */
  predicate ValidList(nlog: nat, size: nat, lh: seq<Word>)
  {
    && |lh| <= LOGSIZE && |lh| < nlog
    && forall i :: 0 <= i < |lh| ==> lh[i] < size && Home(nlog, lh[i])
  }

  /** log_write's effect on the header list: a block already listed is absorbed. */
  function Recorded(lh: seq<Word>, b: Word): (r: seq<Word>)
    ensures forall x :: x in r <==> x in lh || x == b
    ensures Distinct(lh) ==> Distinct(r)
  {
    if b in lh then lh else lh + [b]
  }

  /** The list `lh`, with its data blocks in the log, turns disk d into one whose home blocks are v. */
  ghost predicate Redo(nlog: nat, d: Image, lh: seq<Word>, v: Image)
  {
    && Geometry(nlog, d) && |v| == |d|
    && ValidList(nlog, |d|, lh)
    && (forall i :: 0 <= i < |lh| ==> d[START + 1 + i] == v[lh[i]])
    && (forall b {:trigger Home(nlog, b)} :: 0 <= b < |d| && Home(nlog, b) && b !in lh ==> d[b] == v[b])
  }

  /** Completed recovery from d leaves exactly the home blocks of v. */
  ghost predicate RecoversTo(nlog: nat, d: Image, v: Image)
  {
    && Geometry(nlog, d)
    && Redo(nlog, d, Header(nlog, d), v)
  }

  /** v and w agree on every home block. */
  ghost predicate SameHome(nlog: nat, v: Image, w: Image)
  {
    |v| == |w| && forall b {:trigger Home(nlog, b)} :: 0 <= b < |v| && Home(nlog, b) ==> v[b] == w[b]
  }

  /** The log is empty and the home blocks are those of v. */
  ghost predicate Clean(nlog: nat, d: Image, v: Image)
  {
    && Geometry(nlog, d) && |v| == |d|
    && Header(nlog, d) == []
    && forall b {:trigger Home(nlog, b)} :: 0 <= b < |d| && Home(nlog, b) ==> d[b] == v[b]
  }

  /** A disk recovers to at most one state of its home blocks. */
  lemma RecoveryIsDeterministic(nlog: nat, d: Image, v: Image, w: Image)
    requires RecoversTo(nlog, d, v) && RecoversTo(nlog, d, w)
    ensures SameHome(nlog, v, w)
  {
    var lh := Header(nlog, d);
    forall b | 0 <= b < |d| && Home(nlog, b)
      ensures v[b] == w[b]
    {
      if b in lh {
        var i :| 0 <= i < |lh| && lh[i] == b;
        assert d[START + 1 + i] == v[lh[i]];
      }
    }
  }

  /** Installing the i-th logged block at home changes nothing recovery could see. */
  lemma InstallKeepsRedo(nlog: nat, d: Image, lh: seq<Word>, v: Image, i: nat)
    requires Redo(nlog, d, lh, v) && i < |lh|
    ensures Redo(nlog, d[lh[i] := d[START + 1 + i]], lh, v)
    ensures Geometry(nlog, d) && Header(nlog, d[lh[i] := d[START + 1 + i]]) == Header(nlog, d)
  {
  }

  /** Once every listed block is home, the home blocks are those of v. */
  lemma AllInstalled(nlog: nat, d: Image, lh: seq<Word>, v: Image)
    requires Redo(nlog, d, lh, v)
    requires forall i :: 0 <= i < |lh| ==> d[lh[i]] == v[lh[i]]
    ensures forall b {:trigger Home(nlog, b)} :: 0 <= b < |d| && Home(nlog, b) ==> d[b] == v[b]
  {
    forall b | 0 <= b < |d| && Home(nlog, b)
      ensures d[b] == v[b]
    {
      if b in lh {
        var i :| 0 <= i < |lh| && lh[i] == b;
      }
    }
  }
}
