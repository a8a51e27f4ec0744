/** Constants and notions that several modules share. */
module Params {
  const MAXOPBLOCKS := 10           // param.h: the most blocks a file system call logs
  const LOGSIZE := 3 * MAXOPBLOCKS  // param.h: the most blocks a transaction lists
  const UINT := 0x1_0000_0000       // 2^32: unsigned arithmetic wraps there

  predicate Distinct(s: seq<int>)
  {
    forall i, j :: 0 <= i < j < |s| ==> s[i] != s[j]
  }
}
