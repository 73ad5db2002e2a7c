/**
  The entries of a cluster log (cluster/rpc.h): byte strings that begin with their own length.
 */
module LogEntry {
  import opened Bytes

  const RPC_HEAD_SIZE: nat := 6

  /** The head of a log file, in front of its first entry. */
  const HEAD_SIZE: nat := 32

  type Entry = seq<byte>

  /** The first word of an entry is its own length (raftRpcHead::size). */
  predicate Framed(e: Entry) {
    RPC_HEAD_SIZE <= |e| < WORD32 && GetU32(e, 0) == |e|
  }

  /** The bytes at the boundary after k entries are entry k, and its first word leads to the next boundary. */
  lemma {:induction false} EntryBytes(data: seq<byte>, size: nat, es: seq<Entry>, k: nat)
    requires size <= |data| && data[..size] == Flat(es) && k < |es| && Framed(es[k])
    ensures var at := |Flat(es[..k])|; var e := es[k];
            && at + |e| <= size && GetU32(data, at) == |e| && data[at..at + |e|] == e
            && Flat(es[..k + 1]) == Flat(es[..k]) + e
  {
    var at, e := |Flat(es[..k])|, es[k];
    FlatAt(es, k);
    SliceOfPrefix(data, size, at, at + |e|);
    SliceOfSlice(data, at, at + |e|, 0, 4);
  }
}
