/**
  The block index of a cluster log file (cluster/clusterLogFile.cpp): findBlock searches the block whose
  range of log indexes contains a target, block::find walks the entries of that block, and rollback cuts
  the file there.
 */
module LogIndex {
  import opened Bytes
  import opened LogEntry

  const ENTRY_HEAD_SIZE: nat := 46
  const TERM_AT: nat := 6
  const INDEX_AT: nat := 14

  /** logIndexInfo of cluster/rpc.h: two 64-bit numbers in lexicographic order. */
  datatype Index = Index(term: nat, index: nat)

  predicate Less(a: Index, b: Index) {
    a.term < b.term || (a.term == b.term && a.index < b.index)
  }

  /** `logIndex += 1` on a 64-bit number. */
  function After(a: Index): Index { Index(a.term, (a.index + 1) % WORD64) }

  /** An entry holds at least its head, with its log index behind the six bytes of raftRpcHead. */
  predicate EntryOk(e: Entry) { Framed(e) && ENTRY_HEAD_SIZE <= |e| }

  function IndexAt(data: seq<byte>, at: nat): Index
    requires at + ENTRY_HEAD_SIZE <= |data|
  {
    Index(GetU64(data, at + TERM_AT), GetU64(data, at + INDEX_AT))
  }

  function IndexOf(e: Entry): Index { if |e| < ENTRY_HEAD_SIZE then Index(0, 0) else IndexAt(e, 0) }

  // ---------------------------------------------------------------- which block contains an index

  ghost predicate Ascending(starts: seq<Index>) {
    forall i, j | 0 <= i < j < |starts| :: Less(starts[i], starts[j])
  }

  /** Block i holds the indexes from its start up to the start of the next block, the last block up to `last`. */
  ghost predicate Contains(starts: seq<Index>, last: Index, i: nat, target: Index)
    requires i < |starts|
  {
    && !Less(target, starts[i])
    && if i == |starts| - 1 then !Less(last, target) else Less(target, starts[i + 1])
  }

  lemma ContainingBlockIsUnique(starts: seq<Index>, last: Index, i: nat, j: nat, target: Index)
    requires Ascending(starts) && i < |starts| && j < |starts|
    requires Contains(starts, last, i, target) && Contains(starts, last, j, target)
    ensures i == j
  {
  }

  /** Does the halving of [s, e), continued as in lines 406-423, ever test block i? */
  predicate Probes(s: int, e: int, i: int)
    decreases e - s
  {
    s < e &&
    var m := (s + e) / 2;
    m == i || (if m < i then Probes(m + 1, e, i) else Probes(s, m - 1, i))
  }

  /** The end findBlock computes for block i (lines 429-436): for the last block it may wrap around. */
  function EndOf(starts: seq<Index>, last: Index, i: nat): Index
    requires i < |starts|
  {
    if i == |starts| - 1 then After(last) else starts[i + 1]
  }

  /**
    When findBlock answers with the block i that contains the target: a target that starts the block is met
    directly if the block is tested; any other target is lost once its block has been tested, because the
    search then goes on behind it and only the last block is returned to.
   */
  predicate Reached(starts: seq<Index>, last: Index, i: nat, target: Index)
    requires i < |starts|
  {
    var probed := Probes(0, |starts|, i);
    if probed && starts[i] == target then true
    else Less(target, EndOf(starts, last, i)) && (!probed || i == |starts| - 1)
  }

  /** The state of the search for a target that block i contains. */
  ghost predicate Searching(starts: seq<Index>, i: nat, target: Index, s: int, e: int)
    requires i < |starts|
  {
    && s - 1 <= i <= e
    && (i == s - 1 ==> starts[i] != target && Probes(0, |starts|, i))
    && (s <= i ==> Probes(0, |starts|, i) == Probes(s, e, i))
  }

  lemma SearchStep(starts: seq<Index>, last: Index, i: nat, target: Index, s: int, e: int)
    requires Ascending(starts) && i < |starts| && Contains(starts, last, i, target)
    requires 0 <= s < e <= |starts| && Searching(starts, i, target, s, e)
    ensures var m := (s + e) / 2;
            && (Less(starts[m], target) ==> Searching(starts, i, target, m + 1, e))
            && (Less(target, starts[m]) ==> Searching(starts, i, target, s, m - 1))
            && (starts[m] == target ==> i == m && Probes(0, |starts|, i))
  {
  }

  /** Blocks before s start below the target, blocks behind e above it. */
  ghost predicate Between(starts: seq<Index>, target: Index, s: int, e: int) {
    && 0 <= s <= |starts| && -1 <= e <= |starts| && s <= e + 1
    && (forall i | 0 <= i < s :: Less(starts[i], target))
    && (forall i | e < i < |starts| :: Less(target, starts[i]))
  }

  ghost predicate SearchState(starts: seq<Index>, last: Index, target: Index, s: int, e: int) {
    && Between(starts, target, s, e)
    && (forall i: nat {:trigger Contains(starts, last, i, target)} |
          i < |starts| && Contains(starts, last, i, target) :: Searching(starts, i, target, s, e))
  }

  /** What findBlock has to answer. */
  ghost predicate Answer(starts: seq<Index>, last: Index, target: Index, at: int) {
    && -1 <= at < |starts|
    && (at >= 0 ==> Contains(starts, last, at, target))
    && (forall i: nat {:trigger Contains(starts, last, i, target)} | i < |starts| &&
         Contains(starts, last, i, target) ::
          at == if Reached(starts, last, i, target) then i else -1)
  }

  lemma BetweenStep(starts: seq<Index>, target: Index, s: int, e: int)
    requires Ascending(starts) && Between(starts, target, s, e) && s < e
    ensures var m := (s + e) / 2;
            && (Less(starts[m], target) ==> Between(starts, target, m + 1, e))
            && (Less(target, starts[m]) ==> Between(starts, target, s, m - 1))
  {
  }

  lemma StateStep(starts: seq<Index>, last: Index, target: Index, s: int, e: int)
    requires Ascending(starts) && SearchState(starts, last, target, s, e) && s < e
    ensures var m := (s + e) / 2;
            && (Less(starts[m], target) ==> SearchState(starts, last, target, m + 1, e))
            && (Less(target, starts[m]) ==> SearchState(starts, last, target, s, m - 1))
  {
    BetweenStep(starts, target, s, e);
    forall i: nat | i < |starts| && Contains(starts, last, i, target)
      ensures var m := (s + e) / 2;
              && (Less(starts[m], target) ==> Searching(starts, i, target, m + 1, e))
              && (Less(target, starts[m]) ==> Searching(starts, i, target, s, m - 1))
    {
      SearchStep(starts, last, i, target, s, e);
    }
  }

  lemma Hit(starts: seq<Index>, last: Index, target: Index, s: int, e: int)
    requires Ascending(starts) && SearchState(starts, last, target, s, e) && s < e
    requires starts != [] ==> !Less(last, starts[|starts| - 1])
    requires starts[(s + e) / 2] == target
    ensures Answer(starts, last, target, (s + e) / 2)
  {
    var m := (s + e) / 2;
    forall i: nat | i < |starts| && Contains(starts, last, i, target)
      ensures i == m && Reached(starts, last, i, target)
    {
      SearchStep(starts, last, i, target, s, e);
    }
  }

  /** Lines 424-442 for one block that contains the target. */
  lemma EndOfSearch(starts: seq<Index>, last: Index, target: Index, s: int, e: int, i: nat)
    requires Ascending(starts) && SearchState(starts, last, target, s, e) && s >= e
    requires i < |starts| && Contains(starts, last, i, target)
    ensures e >= 0
    ensures var t := if s >= |starts| then |starts| - 1 else s;
            if Reached(starts, last, i, target) then t == i && Less(target, EndOf(starts, last, i))
            else Less(target, starts[t]) || !Less(target, EndOf(starts, last, t))
  {
    assert Searching(starts, i, target, s, e);
  }

  /**
    Lines 400-443. The answer is a block number, or -1 for a null pointer.
   */
  method FindBlock(starts: seq<Index>, last: Index, target: Index) returns (at: int)
    requires Ascending(starts) && (starts != [] ==> !Less(last, starts[|starts| - 1]))
    ensures -1 <= at < |starts|
    ensures at >= 0 ==> Contains(starts, last, at, target)
    ensures forall i: nat {:trigger Contains(starts, last, i, target)} | i < |starts| &&
              Contains(starts, last, i, target) ::
              at == if Reached(starts, last, i, target) then i else -1
  {
    at := -1;
    if |starts| == 0 {
      return;
    }
    var s, e := 0, |starts|;
    while s < e
      invariant SearchState(starts, last, target, s, e)
    {
      var m := (s + e) / 2;
      StateStep(starts, last, target, s, e);
      if Less(starts[m], target) {
        s := m + 1;
      } else if Less(target, starts[m]) {
        e := m - 1;
      } else {
        Hit(starts, last, target, s, e);
        at := m;
        return;
      }
    }
    forall i: nat | i < |starts| && Contains(starts, last, i, target)
      ensures e >= 0
      ensures var t := if s >= |starts| then |starts| - 1 else s;
              if Reached(starts, last, i, target) then t == i && Less(target, EndOf(starts, last, i))
              else Less(target, starts[t]) || !Less(target, EndOf(starts, last, t))
    {
      EndOfSearch(starts, last, target, s, e, i);
    }
    if e < 0 {
      return;
    }
    if s >= |starts| {
      s := |starts| - 1;
    }
    if !Less(target, starts[s]) && Less(target, EndOf(starts, last, s)) {
      at := s;
    }
  }

  /** With three blocks or more the middle one is tested first, so an index inside it is never found. */
  lemma MiddleBlockIsMissed(starts: seq<Index>, last: Index, target: Index)
    requires |starts| >= 3
    ensures var i := |starts| / 2; starts[i] != target ==> !Reached(starts, last, i, target)
  {
  }

  /** An index that starts a block, or lies in the last block, is always found unless the end wraps around. */
  lemma StartsAndLastBlockAreReached(starts: seq<Index>, last: Index, i: nat, target: Index)
    requires Ascending(starts) && i < |starts| && Contains(starts, last, i, target)
    requires starts[i] == target || i == |starts| - 1
    requires last.index < WORD64 - 1
    ensures Reached(starts, last, i, target)
  {
    if i < |starts| - 1 {
      assert Less(starts[i], starts[i + 1]);
    }
  }

  /** Three blocks that start at 1, 10 and 20: index 15 lies in the second one and is not found. */
  lemma MissedIndex()
    ensures var starts := [Index(1, 1), Index(1, 10), Index(1, 20)];
            && Ascending(starts) && Contains(starts, Index(1, 30), 1, Index(1, 15))
            && !Reached(starts, Index(1, 30), 1, Index(1, 15))
  {
    assert Probes(0, 3, 1);
  }

  // ---------------------------------------------------------------- entries in order

  /** The entries whose index is below the target. */
  function Below(es: seq<Entry>, target: Index): seq<Entry> {
    if es == [] then []
    else if Less(IndexOf(es[0]), target) then [es[0]] + Below(es[1..], target)
    else Below(es[1..], target)
  }

  ghost predicate Rising(es: seq<Entry>) {
    forall i: nat, j: nat {:trigger InOrder(es, i, j)} | i < j < |es| :: InOrder(es, i, j)
  }

  ghost predicate InOrder(es: seq<Entry>, i: nat, j: nat)
    requires i < j < |es|
  {
    Less(IndexOf(es[i]), IndexOf(es[j]))
  }

  lemma {:induction false} BelowIsPrefix(es: seq<Entry>, target: Index, k: nat)
    requires k <= |es|
    requires forall i | 0 <= i < k :: Less(IndexOf(es[i]), target)
    requires forall i | k <= i < |es| :: !Less(IndexOf(es[i]), target)
    ensures Below(es, target) == es[..k]
  {
    if es != [] {
      BelowIsPrefix(es[1..], target, if k > 0 then k - 1 else 0);
      assert k > 0 ==> es[..k] == [es[0]] + es[1..][..k - 1];
    }
  }

  lemma {:induction false} BelowAll(es: seq<Entry>, target: Index)
    ensures Below(es, target) == es <==> forall i | 0 <= i < |es| :: Less(IndexOf(es[i]), target)
    ensures |Below(es, target)| <= |es|
  {
    if es != [] {
      BelowAll(es[1..], target);
      assert es == [es[0]] + es[1..];
      if Less(IndexOf(es[0]), target) && Below(es, target) == es {
        assert Below(es, target)[1..] == Below(es[1..], target);
        assert forall i | 1 <= i < |es| :: es[i] == es[1..][i - 1];
      }
    }
  }

  /** Reading entry k of a block through the byte cursor. */
  lemma {:induction false} IndexBytes(data: seq<byte>, size: nat, es: seq<Entry>, k: nat)
    requires size <= |data| && data[..size] == Flat(es) && k < |es| && EntryOk(es[k])
    ensures var at := |Flat(es[..k])|;
            && at + |es[k]| <= size && IndexAt(data, at) == IndexOf(es[k]) && GetU32(data, at) == |es[k]|
            && Flat(es[..k + 1]) == Flat(es[..k]) + es[k]
  {
    var at, e := |Flat(es[..k])|, es[k];
    EntryBytes(data, size, es, k);
    SliceOfSlice(data, at, at + |e|, TERM_AT, TERM_AT + 8);
    SliceOfSlice(data, at, at + |e|, INDEX_AT, INDEX_AT + 8);
  }

  lemma {:induction false} AtEntry(data: seq<byte>, size: nat, es: seq<Entry>, k: nat)
    requires size <= |data| && data[..size] == Flat(es) && k <= |es|
    requires forall i | 0 <= i < |es| :: EntryOk(es[i])
    ensures var at := |Flat(es[..k])|;
            && (at < size <==> k < |es|)
            && (k < |es| ==> at + ENTRY_HEAD_SIZE <= |data| && IndexAt(data, at) == IndexOf(es[k]))
  {
    if k < |es| {
      IndexBytes(data, size, es, k);
    } else {
      assert es[..k] == es;
    }
  }

  /** The cursor is where entry k begins, or at the end of the block. */
  ghost predicate AtBoundary(data: seq<byte>, size: nat, es: seq<Entry>, k: nat, at: int) {
    && k <= |es| && at == |Flat(es[..k])|
    && (at < size <==> k < |es|)
    && (at < size ==> at + ENTRY_HEAD_SIZE <= |data| && IndexAt(data, at) == IndexOf(es[k]))
  }

  lemma {:induction false} NextBoundary(data: seq<byte>, size: nat, es: seq<Entry>, k: nat)
    requires size <= |data| && data[..size] == Flat(es) && k < |es|
    requires forall i | 0 <= i < |es| :: EntryOk(es[i])
    ensures var at := |Flat(es[..k])|; at + 4 <= |data| && AtBoundary(data, size, es, k + 1, at + GetU32(data, at))
  {
    IndexBytes(data, size, es, k);
    AtEntry(data, size, es, k + 1);
  }

  /** How many entries at the front are below the target. */
  function Leading(es: seq<Entry>, target: Index): (k: nat)
    ensures k <= |es|
  {
    if es == [] || !Less(IndexOf(es[0]), target) then 0 else 1 + Leading(es[1..], target)
  }

  lemma {:induction false} LeadingIs(es: seq<Entry>, target: Index, k: nat)
    requires k <= |es| && (forall i | 0 <= i < k :: Less(IndexOf(es[i]), target))
    requires k < |es| ==> !Less(IndexOf(es[k]), target)
    ensures Leading(es, target) == k
  {
    if k > 0 {
      LeadingIs(es[1..], target, k - 1);
    }
  }

  lemma {:induction false} LeadingAreBelow(es: seq<Entry>, target: Index)
    ensures var k := Leading(es, target);
            && (forall i | 0 <= i < k :: Less(IndexOf(es[i]), target))
            && (k < |es| ==> !Less(IndexOf(es[k]), target))
  {
    if es != [] && Less(IndexOf(es[0]), target) {
      LeadingAreBelow(es[1..], target);
    }
  }

  /** Lines 35-46: the offset of the first entry not below the target, -1 (INVALID_RESULT) when there is none. */
  method FindEntry(data: seq<byte>, size: nat, target: Index, ghost es: seq<Entry>) returns (at: int)
    requires size <= |data| && data[..size] == Flat(es)
    requires forall i | 0 <= i < |es| :: EntryOk(es[i])
    ensures var k := Leading(es, target); at == if k == |es| then -1 else |Flat(es[..k])|
  {
    at := 0;
    ghost var k := 0;
    assert es[..0] == [];
    AtEntry(data, size, es, 0);
    while at < size && Less(IndexAt(data, at), target)
      invariant AtBoundary(data, size, es, k, at)
      invariant forall i | 0 <= i < k :: Less(IndexOf(es[i]), target)
      decreases |es| - k
    {
      NextBoundary(data, size, es, k);
      at := at + GetU32(data, at);
      k := k + 1;
    }
    LeadingIs(es, target, k);
    if at >= size {
      at := -1;
    }
  }

  // ---------------------------------------------------------------- the file and its rollback

  /** `linked` tells that the next pointer leads to the following block. */
  datatype Block = Block(id: nat, start: Index, offset: nat, loaded: bool, data: seq<byte>, size: nat, linked: bool)

  function Starts(blocks: seq<Block>): (starts: seq<Index>)
    ensures |starts| == |blocks|
  {
    seq(|blocks|, i requires 0 <= i < |blocks| => blocks[i].start)
  }

  /** What the file would hold if everything were written to it. */
  ghost function Image(head: seq<byte>, entries: seq<seq<Entry>>): seq<byte> {
    head + Flat(Flat(entries))
  }

  /** Block i of a file of n blocks, holding the entries es, lies at the offset `at`. */
  ghost predicate BlockOk(b: Block, i: nat, n: nat, es: seq<Entry>, at: nat, written: nat) {
    && b.id == i && b.offset == at && b.size == |Flat(es)|
    && es != [] && (forall k | 0 <= k < |es| :: EntryOk(es[k]))
    && b.start == IndexOf(es[0])
    && (b.linked <==> i < n - 1)
    && (b.loaded ==> b.size <= |b.data| && b.data[..b.size] == Flat(es))
    && (!b.loaded ==> b.offset + b.size <= written)
  }

  /** The offset of the block that follows the given ones. */
  ghost function OffsetAfter(entries: seq<seq<Entry>>): nat { HEAD_SIZE + |Flat(Flat(entries))| }

  ghost predicate BlocksOk(blocks: seq<Block>, entries: seq<seq<Entry>>, written: nat) {
    && |blocks| == |entries|
    && forall i: nat {:trigger BlockAt(blocks, entries, written, i)} | i < |blocks| ::
         BlockAt(blocks, entries, written, i)
  }

  ghost predicate BlockAt(blocks: seq<Block>, entries: seq<seq<Entry>>, written: nat, i: nat)
    requires i < |blocks| == |entries|
  {
    BlockOk(blocks[i], i, |blocks|, entries[i], OffsetAfter(entries[..i]), written)
  }

  /** Block i contains the target, findBlock reaches it, and one of its entries is not below the target. */
  ghost predicate Cuts(starts: seq<Index>, last: Index, entries: seq<seq<Entry>>, target: Index, i: nat)
    requires |starts| == |entries|
  {
    && i < |starts| && entries[i] != []
    && Contains(starts, last, i, target) && Reached(starts, last, i, target)
    && !Less(IndexOf(entries[i][|entries[i]| - 1]), target)
  }

  lemma {:induction false} OffsetOf(entries: seq<seq<Entry>>, i: nat)
    requires i < |entries|
    ensures OffsetAfter(entries[..i + 1]) == OffsetAfter(entries[..i]) + |Flat(entries[i])| <= OffsetAfter(entries)
    ensures var c := |Flat(entries[..i])|;
            c + |entries[i]| <= |Flat(entries)| && Flat(entries)[c..c + |entries[i]|] == entries[i]
  {
    FlatAt(entries, i);
    FlatConcat(Flat(entries[..i]), entries[i]);
    assert entries[..i + 1] + entries[i + 1..] == entries;
    FlatConcat(entries[..i + 1], entries[i + 1..]);
    FlatConcat(Flat(entries[..i + 1]), Flat(entries[i + 1..]));
  }

  /** Entry k of block i is entry |Flat(entries[..i])| + k of the file. */
  lemma {:induction false} EntryInFlat(entries: seq<seq<Entry>>, i: nat, k: nat)
    requires i < |entries| && k < |entries[i]|
    ensures var c := |Flat(entries[..i])| + k; c < |Flat(entries)| && Flat(entries)[c] == entries[i][k]
  {
    FlatAt(entries, i);
    var c := |Flat(entries[..i])|;
    assert Flat(entries)[c..c + |entries[i]|][k] == Flat(entries)[c + k];
  }

  lemma {:induction false} SameBlockRises(entries: seq<seq<Entry>>, i: nat, a: nat, b: nat)
    requires Rising(Flat(entries)) && i < |entries| && a <= b < |entries[i]|
    ensures a < b ==> Less(IndexOf(entries[i][a]), IndexOf(entries[i][b]))
  {
    EntryInFlat(entries, i, a);
    EntryInFlat(entries, i, b);
    if a < b {
      assert InOrder(Flat(entries), |Flat(entries[..i])| + a, |Flat(entries[..i])| + b);
    }
  }

  lemma {:induction false} StartsRise(entries: seq<seq<Entry>>, i: nat, j: nat)
    requires Rising(Flat(entries)) && i < j < |entries| && entries[i] != [] && entries[j] != []
    ensures Less(IndexOf(entries[i][0]), IndexOf(entries[j][0]))
  {
    EntryInFlat(entries, i, 0);
    EntryInFlat(entries, j, 0);
    FlatAt(entries[..j], i);
    assert entries[..j][..i] == entries[..i];
    assert InOrder(Flat(entries), |Flat(entries[..i])|, |Flat(entries[..j])|);
  }

  /** No entry is above `last`. */
  ghost predicate EndsBy(entries: seq<seq<Entry>>, last: Index) {
    Flat(entries) != [] ==> !Less(last, IndexOf(Flat(entries)[|Flat(entries)| - 1]))
  }

  lemma {:induction false} StartsAscend(blocks: seq<Block>, entries: seq<seq<Entry>>, written: nat)
    requires BlocksOk(blocks, entries, written) && Rising(Flat(entries))
    ensures Ascending(Starts(blocks))
  {
    forall i: nat, j: nat | i < j < |blocks| ensures Less(Starts(blocks)[i], Starts(blocks)[j]) {
      UseBlock(blocks, entries, written, i);
      UseBlock(blocks, entries, written, j);
      StartsRise(entries, i, j);
    }
  }

  lemma {:induction false} UseBlock(blocks: seq<Block>, entries: seq<seq<Entry>>, written: nat, i: nat)
    requires BlocksOk(blocks, entries, written) && i < |blocks|
    ensures BlockAt(blocks, entries, written, i)
  {
  }

  lemma {:induction false} Searchable(blocks: seq<Block>, entries: seq<seq<Entry>>, written: nat, last: Index)
    requires BlocksOk(blocks, entries, written) && Rising(Flat(entries)) && EndsBy(entries, last)
    ensures Ascending(Starts(blocks)) && (blocks != [] ==> !Less(last, Starts(blocks)[|blocks| - 1]))
  {
    StartsAscend(blocks, entries, written);
    if blocks != [] {
      UseBlock(blocks, entries, written, |blocks| - 1);
      EndsWithLast(entries, last, 0);
    }
  }

  /** The entries left when block i is cut after its first k entries. */
  function Cut(entries: seq<seq<Entry>>, i: nat, k: nat): seq<seq<Entry>>
    requires i < |entries| && k <= |entries[i]|
  {
    if k == 0 then entries[..i] else entries[..i] + [entries[i][..k]]
  }

  lemma {:induction false} FlatOfCut(entries: seq<seq<Entry>>, i: nat, k: nat)
    requires i < |entries| && k <= |entries[i]|
    ensures |Flat(entries[..i])| + k <= |Flat(entries)|
    ensures Flat(Cut(entries, i, k)) == Flat(entries[..i]) + entries[i][..k]
    ensures Flat(Cut(entries, i, k)) == Flat(entries)[..|Flat(entries[..i])| + k]
  {
    FlatSnoc(entries[..i], entries[i][..k]);
    PrefixOfFlat(entries, i + 1);
    FlatAt(entries, i);
    PrefixOfSum(Flat(entries), Flat(entries[..i]), entries[i], k);
  }

  lemma PrefixOfSum<T>(all: seq<T>, a: seq<T>, b: seq<T>, k: nat)
    requires k <= |b| && |a| + |b| <= |all| && all[..|a| + |b|] == a + b
    ensures all[..|a| + k] == a + b[..k]
  {
    assert all[..|a| + k] == all[..|a| + |b|][..|a| + k];
  }

  /** Target lies in block i, before entry k and behind the entries in front of it. */
  ghost predicate CutPoint(entries: seq<seq<Entry>>, i: nat, k: nat, target: Index) {
    && i < |entries| && k < |entries[i]|
    && !Less(target, IndexOf(entries[i][0]))
    && (forall j | 0 <= j < k :: Less(IndexOf(entries[i][j]), target))
    && !Less(IndexOf(entries[i][k]), target)
  }

  lemma {:induction false} BeforeCut(entries: seq<seq<Entry>>, i: nat, k: nat, target: Index, j: nat)
    requires Rising(Flat(entries)) && CutPoint(entries, i, k, target)
    requires j < |Flat(entries[..i])| + k
    ensures j < |Flat(entries)| && Less(IndexOf(Flat(entries)[j]), target)
  {
    var c := |Flat(entries[..i])|;
    EntryInFlat(entries, i, 0);
    if j < c {
      assert InOrder(Flat(entries), j, c);
    } else {
      EntryInFlat(entries, i, j - c);
    }
  }

  lemma {:induction false} BehindCut(entries: seq<seq<Entry>>, i: nat, k: nat, target: Index, j: nat)
    requires Rising(Flat(entries)) && CutPoint(entries, i, k, target)
    requires |Flat(entries[..i])| + k <= j < |Flat(entries)|
    ensures !Less(IndexOf(Flat(entries)[j]), target)
  {
    var c := |Flat(entries[..i])|;
    EntryInFlat(entries, i, k);
    if c + k < j {
      assert InOrder(Flat(entries), c + k, j);
    }
  }

  /** Cutting block i after its first k entries leaves exactly the entries below the target. */
  lemma {:induction false} CutIsBelow(entries: seq<seq<Entry>>, i: nat, k: nat, target: Index)
    requires Rising(Flat(entries)) && CutPoint(entries, i, k, target)
    ensures Below(Flat(entries), target) == Flat(Cut(entries, i, k))
  {
    var all, c := Flat(entries), |Flat(entries[..i])|;
    FlatOfCut(entries, i, k);
    forall j: nat | j < c + k ensures Less(IndexOf(all[j]), target) {
      BeforeCut(entries, i, k, target, j);
    }
    forall j: nat | c + k <= j < |all| ensures !Less(IndexOf(all[j]), target) {
      BehindCut(entries, i, k, target, j);
    }
    BelowIsPrefix(all, target, c + k);
  }

  lemma {:induction false} PrefixOfFlat<T>(parts: seq<seq<T>>, i: nat)
    requires i <= |parts|
    ensures |Flat(parts[..i])| <= |Flat(parts)| && Flat(parts)[..|Flat(parts[..i])|] == Flat(parts[..i])
  {
    assert parts[..i] + parts[i..] == parts;
    FlatConcat(parts[..i], parts[i..]);
  }

  /** The blocks left when block i is cut after its first k entries (lines 642-669). */
  function CutBlocks(blocks: seq<Block>, i: nat, k: nat, size: nat): seq<Block>
    requires i < |blocks|
  {
    if k > 0 then blocks[..i] + [blocks[i].(size := size, linked := false)]
    else if i == 0 then []
    else blocks[..i - 1] + [blocks[i - 1].(linked := false)]
  }

  /** The updates of lines 642-669, one after the other. */
  lemma CutStepByStep(blocks: seq<Block>, i: nat, k: nat, size: nat)
    requires i < |blocks|
    ensures var bs := blocks[i := blocks[i].(size := size)]; var n := if k == 0 then i else i + 1;
            var cut := CutBlocks(blocks, i, k, size);
            && |cut| == n
            && (n == 0 ==> bs[..n] == cut)
            && (n > 0 ==> bs[..n][n - 1 := bs[..n][n - 1].(linked := false)] == cut)
            && (n > 0 ==> bs[n - 1].offset == cut[n - 1].offset && bs[n - 1].size == cut[n - 1].size)
  {
  }

  lemma CutLast(b: Block, i: nat, n: nat, es: seq<Entry>, at: nat, written: nat, k: nat, written': nat)
    requires BlockOk(b, i, n, es, at, written) && b.loaded && 0 < k < |es|
    ensures BlockOk(b.(size := |Flat(es[..k])|, linked := false), i, i + 1, es[..k], at, written')
  {
    PrefixOfFlat(es, k);
    assert b.data[..|Flat(es[..k])|] == b.data[..b.size][..|Flat(es[..k])|];
  }

  lemma Relink(b: Block, i: nat, n: nat, es: seq<Entry>, at: nat, written: nat, n': nat, written': nat)
    requires BlockOk(b, i, n, es, at, written) && i < n'
    requires written' >= written || written' >= at + |Flat(es)|
    ensures BlockOk(b.(linked := i < n' - 1), i, n', es, at, written')
  {
  }

  /** The cut block itself, when some of its entries stay. */
  lemma {:induction false} LastCutBlockOk(blocks: seq<Block>, entries: seq<seq<Entry>>, written: nat, i: nat, k: nat,
                                          written': nat)
    requires BlocksOk(blocks, entries, written) && i < |blocks| && 0 < k < |entries[i]| && blocks[i].loaded
    ensures var bs, es := CutBlocks(blocks, i, k, |Flat(entries[i][..k])|), Cut(entries, i, k);
            |bs| == |es| == i + 1 && BlockAt(bs, es, written', i)
  {
    UseBlock(blocks, entries, written, i);
    assert Cut(entries, i, k)[..i] == entries[..i];
    CutLast(blocks[i], i, |blocks|, entries[i], OffsetAfter(entries[..i]), written, k, written');
  }

  /** The entries of the blocks in front of the cut stay, and the file still reaches behind them. */
  lemma {:induction false} CutBehind(entries: seq<seq<Entry>>, i: nat, k: nat, j: nat)
    requires j < i < |entries| && k <= |entries[i]|
    ensures var es := Cut(entries, i, k);
            && j < |es| == (if k == 0 then i else i + 1) && es[j] == entries[j] && es[..j] == entries[..j]
            && OffsetAfter(entries[..j]) + |Flat(entries[j])| <= OffsetAfter(es)
  {
    var es := Cut(entries, i, k);
    assert es[..j] == entries[..j] && es[j] == entries[j];
    OffsetOf(es, j);
  }

  /** A block in front of it. */
  lemma {:induction false} EarlierCutBlockOk(blocks: seq<Block>, entries: seq<seq<Entry>>, written: nat, i: nat, k: nat,
                                             written': nat, j: nat)
    requires BlocksOk(blocks, entries, written) && i < |blocks| && k < |entries[i]|
    requires written' >= written || written' >= OffsetAfter(Cut(entries, i, k))
    requires j < i
    ensures var bs, es := CutBlocks(blocks, i, k, |Flat(entries[i][..k])|), Cut(entries, i, k);
            |bs| == |es| && j < |bs| && BlockAt(bs, es, written', j)
  {
    var bs := CutBlocks(blocks, i, k, |Flat(entries[i][..k])|);
    UseBlock(blocks, entries, written, j);
    CutBehind(entries, i, k, j);
    Relink(blocks[j], j, |blocks|, entries[j], OffsetAfter(entries[..j]), written, |bs|, written');
    assert bs[j] == blocks[j].(linked := j < |bs| - 1);
  }

  lemma {:induction false} CutBlocksOk(blocks: seq<Block>, entries: seq<seq<Entry>>, written: nat, i: nat, k: nat,
                                       written': nat)
    requires BlocksOk(blocks, entries, written) && i < |blocks| && k < |entries[i]| && blocks[i].loaded
    requires written' >= written || written' >= OffsetAfter(Cut(entries, i, k))
    ensures BlocksOk(CutBlocks(blocks, i, k, |Flat(entries[i][..k])|), Cut(entries, i, k), written')
  {
    var bs, es := CutBlocks(blocks, i, k, |Flat(entries[i][..k])|), Cut(entries, i, k);
    forall j: nat | j < |bs| ensures BlockAt(bs, es, written', j) {
      if j < i {
        EarlierCutBlockOk(blocks, entries, written, i, k, written', j);
      } else {
        LastCutBlockOk(blocks, entries, written, i, k, written');
      }
    }
  }

  function Loaded(b: Block, file: seq<byte>): Block
    requires b.offset + b.size <= |file|
  {
    b.(loaded := true, data := file[b.offset..b.offset + b.size])
  }

  lemma LoadedBlock(b: Block, file: seq<byte>, i: nat, n: nat, es: seq<Entry>, at: nat)
    requires BlockOk(b, i, n, es, at, |file|) && at + |Flat(es)| <= |file| && file[at..at + |Flat(es)|] == Flat(es)
    ensures BlockOk(Loaded(b, file), i, n, es, at, |file|)
  {
  }

  /** loadBlock: an evicted block is completely in the file. */
  lemma {:induction false} LoadedOk(blocks: seq<Block>, entries: seq<seq<Entry>>, head: seq<byte>, file: seq<byte>,
                                    i: nat)
    requires BlocksOk(blocks, entries, |file|) && i < |blocks| && !blocks[i].loaded
    requires |head| == HEAD_SIZE && |file| <= OffsetAfter(entries) && file <= Image(head, entries)
    ensures blocks[i].offset + blocks[i].size <= |file|
    ensures BlocksOk(blocks[i := Loaded(blocks[i], file)], entries, |file|)
  {
    UseBlock(blocks, entries, |file|, i);
    BlockInImage(entries, head, file, i);
    LoadedBlock(blocks[i], file, i, |blocks|, entries[i], OffsetAfter(entries[..i]));
    ReplacedBlock(blocks, entries, |file|, i, Loaded(blocks[i], file));
  }

  lemma {:induction false} ReplacedBlock(blocks: seq<Block>, entries: seq<seq<Entry>>, written: nat, i: nat, b: Block)
    requires BlocksOk(blocks, entries, written) && i < |blocks|
    requires BlockOk(b, i, |blocks|, entries[i], OffsetAfter(entries[..i]), written)
    ensures BlocksOk(blocks[i := b], entries, written)
  {
    var bs := blocks[i := b];
    forall j: nat | j < |bs| ensures BlockAt(bs, entries, written, j) {
      UseBlock(blocks, entries, written, j);
    }
  }

  lemma {:induction false} BlockInImage(entries: seq<seq<Entry>>, head: seq<byte>, file: seq<byte>, i: nat)
    requires i < |entries| && |head| == HEAD_SIZE && |file| <= OffsetAfter(entries) && file <= Image(head, entries)
    requires OffsetAfter(entries[..i]) + |Flat(entries[i])| <= |file|
    ensures file[OffsetAfter(entries[..i])..OffsetAfter(entries[..i]) + |Flat(entries[i])|] == Flat(entries[i])
  {
    var at, n := OffsetAfter(entries[..i]), |Flat(entries[i])|;
    OffsetOf(entries, i);
    FlatTwice(entries, i);
    var a := |Flat(Flat(entries[..i]))|;
    assert file[at..at + n] == Image(head, entries)[at..at + n] == Flat(Flat(entries))[a..a + n];
  }

  /** The bytes of block i among the bytes of all blocks. */
  lemma {:induction false} FlatTwice(entries: seq<seq<Entry>>, i: nat)
    requires i < |entries|
    ensures var a := |Flat(Flat(entries[..i]))|; var n := |Flat(entries[i])|;
            a + n <= |Flat(Flat(entries))| && Flat(Flat(entries))[a..a + n] == Flat(entries[i])
  {
    var es, upTo := Flat(entries), Flat(entries[..i + 1]);
    FlatAt(entries, i);
    PrefixOfFlat(entries, i + 1);
    assert upTo + es[|upTo|..] == es;
    FlatConcat(upTo, es[|upTo|..]);
    FlatConcat(Flat(entries[..i]), entries[i]);
  }

  lemma {:induction false} CutOrder(entries: seq<seq<Entry>>, last: Index, i: nat, k: nat)
    requires i < |entries| && k < |entries[i]| && Rising(Flat(entries)) && EndsBy(entries, last)
    ensures var es := Cut(entries, i, k); Rising(Flat(es)) && EndsBy(es, last)
  {
    FlatOfCut(entries, i, k);
    var all, n := Flat(entries), |Flat(entries[..i])| + k;
    var cut := Flat(Cut(entries, i, k));
    forall a: nat, b: nat | a < b < |cut| ensures InOrder(cut, a, b) {
      assert InOrder(all, a, b);
    }
    if 0 < n < |all| {
      assert InOrder(all, n - 1, |all| - 1);
    }
  }

  /** The image of the cut file is a prefix of the image before. */
  lemma {:induction false} CutImage(entries: seq<seq<Entry>>, head: seq<byte>, i: nat, k: nat)
    requires i < |entries| && k < |entries[i]|
    ensures Image(head, Cut(entries, i, k)) <= Image(head, entries)
  {
    FlatOfCut(entries, i, k);
    var all, n := Flat(entries), |Flat(entries[..i])| + k;
    assert all[..n] + all[n..] == all;
    FlatConcat(all[..n], all[n..]);
  }

  lemma ShorterPrefix(image: seq<byte>, image': seq<byte>, file: seq<byte>)
    requires image' <= image && file <= image
    ensures |file| > |image'| ==> file[..|image'|] == image'
    ensures |file| <= |image'| ==> file <= image'
  {
  }

  lemma {:induction false} CutEnd(blocks: seq<Block>, entries: seq<seq<Entry>>, written: nat)
    requires BlocksOk(blocks, entries, written)
    ensures blocks == [] <==> Flat(entries) == []
    ensures blocks != [] ==> var b := blocks[|blocks| - 1]; b.offset + b.size == OffsetAfter(entries)
  {
    if blocks != [] {
      var n := |blocks| - 1;
      UseBlock(blocks, entries, written, n);
      OffsetOf(entries, n);
      EntryInFlat(entries, n, 0);
      assert entries[..n + 1] == entries;
    }
  }

  ghost predicate AnyCut(starts: seq<Index>, last: Index, entries: seq<seq<Entry>>, target: Index)
    requires |starts| == |entries|
  {
    exists i: nat :: Cuts(starts, last, entries, target, i)
  }

  /** Whether the entry search in the block found by findBlock succeeds decides whether there is a cut. */
  lemma {:induction false} CutsHere(starts: seq<Index>, last: Index, entries: seq<seq<Entry>>, target: Index, at: nat,
                                    k: nat)
    requires at < |starts| == |entries| && Ascending(starts) && Rising(Flat(entries))
    requires Contains(starts, last, at, target) && Reached(starts, last, at, target)
    requires k <= |entries[at]| && forall j | 0 <= j < k :: Less(IndexOf(entries[at][j]), target)
    requires k < |entries[at]| ==> !Less(IndexOf(entries[at][k]), target)
    ensures AnyCut(starts, last, entries, target) <==> k < |entries[at]|
  {
    var n := |entries[at]| - 1;
    if k <= n {
      SameBlockRises(entries, at, k, n);
      assert Cuts(starts, last, entries, target, at);
    }
    forall i: nat | Cuts(starts, last, entries, target, i) ensures i == at {
      ContainingBlockIsUnique(starts, last, i, at, target);
    }
  }

  /** The state of the file: `written` bytes of the image are on disk. */
  ghost predicate FileOk(blocks: seq<Block>, entries: seq<seq<Entry>>, last: Index, head: seq<byte>, file: seq<byte>) {
    && BlocksOk(blocks, entries, |file|)
    && Rising(Flat(entries)) && EndsBy(entries, last)
    && |head| == HEAD_SIZE && |file| <= OffsetAfter(entries) && file <= Image(head, entries)
  }

  function Shortened(file: seq<byte>, end: nat): seq<byte> { if |file| > end then file[..end] else file }

  /** Everything a cut keeps. */
  lemma {:induction false} CutKeeps(blocks: seq<Block>, entries: seq<seq<Entry>>, last: Index, head: seq<byte>,
                                    file: seq<byte>, i: nat, k: nat)
    requires FileOk(blocks, entries, last, head, file) && i < |blocks| && k < |entries[i]| && blocks[i].loaded
    ensures var bs, es := CutBlocks(blocks, i, k, |Flat(entries[i][..k])|), Cut(entries, i, k);
            && FileOk(bs, es, last, head, Shortened(file, OffsetAfter(es)))
            && (bs == [] <==> Flat(es) == [])
            && (bs != [] ==> var b := bs[|bs| - 1]; b.offset + b.size == OffsetAfter(es))
  {
    var es := Cut(entries, i, k);
    var file' := Shortened(file, OffsetAfter(es));
    CutOrder(entries, last, i, k);
    CutImage(entries, head, i, k);
    ShorterPrefix(Image(head, entries), Image(head, es), file);
    CutBlocksOk(blocks, entries, |file|, i, k, |file'|);
    CutEnd(CutBlocks(blocks, i, k, |Flat(entries[i][..k])|), es, |file'|);
  }

  class LogFile {
    var blocks: seq<Block>
    var last: Index
    var offset: nat
    var current: int
    var file: seq<byte>
    var indexCount: nat
    ghost var head: seq<byte>
    ghost var entries: seq<seq<Entry>>

    /** What appending leaves behind: `last` is at least the index of the last entry. */
    ghost predicate Valid()
      reads this
    {
      && FileOk(blocks, entries, last, head, file)
      && current == |blocks| - 1 && indexCount == |blocks| && offset == OffsetAfter(entries)
    }

    /** A rollback that removes every entry also drops the head: the position is then 0 and not HEAD_SIZE. */
    ghost predicate Emptied()
      reads this
    {
      blocks == [] && current == -1 && offset == 0 && file == [] && indexCount == 0
    }

    method Load(at: nat)
      requires Valid() && at < |blocks|
      modifies this`blocks
      ensures Valid() && |blocks| == |old(blocks)| && blocks[at].loaded && Starts(blocks) == Starts(old(blocks))
    {
      if !blocks[at].loaded {
        LoadedOk(blocks, entries, head, file, at);
        blocks := blocks[at := Loaded(blocks[at], file)];
      }
      assert Starts(blocks) == Starts(old(blocks));
    }

    /** The updates of lines 642-670, in order. */
    method CutFile(at: nat, size: nat, ghost k: nat)
      requires at < |blocks| && blocks[at].id == at && (size == 0 <==> k == 0)
      modifies this`blocks, this`current, this`offset, this`file, this`indexCount
      ensures blocks == CutBlocks(old(blocks), at, k, size) && current == |blocks| - 1
      ensures offset == if blocks == [] then 0 else blocks[current].offset + blocks[current].size
      ensures indexCount == if old(indexCount) > |blocks| then |blocks| else old(indexCount)
      ensures file == Shortened(old(file), offset)
    {
      CutStepByStep(blocks, at, k, size);
      var count := if size == 0 then blocks[at].id else blocks[at].id + 1;
      blocks := blocks[at := blocks[at].(size := size)];
      current := count - 1;
      offset := if current == -1 then 0 else blocks[current].offset + blocks[current].size;
      if indexCount > count {
        indexCount := count;
      }
      if |file| > offset {
        file := file[..offset];
      }
      blocks := blocks[..count];
      if current != -1 {
        blocks := blocks[current := blocks[current].(linked := false)];
      }
    }

    /** Cut block `at` after its first k entries, which take `size` bytes. */
    method Truncate(at: nat, size: nat, ghost k: nat)
      requires Valid() && at < |blocks| && blocks[at].loaded && blocks[at].id == at
      requires k < |entries[at]| && size == |Flat(entries[at][..k])| && (size == 0 <==> k == 0)
      modifies this`blocks, this`current, this`offset, this`file, this`indexCount, this`entries
      ensures entries == Cut(old(entries), at, k)
      ensures Flat(entries) != [] ==> Valid()
      ensures Flat(entries) == [] ==> Emptied()
      ensures file == Shortened(old(file), offset)
    {
      CutKeeps(blocks, entries, last, head, file, at, k);
      CutStepByStep(blocks, at, k, size);
      CutFile(at, size, k);
      entries := Cut(entries, at, k);
    }

    /** Lines 632-641: the block that findBlock answers, loaded, and the offset that block::find answers in it. */
    method Locate(target: Index) returns (at: int, size: int, ghost k: nat)
      requires Valid()
      modifies this`blocks
      ensures Valid() && Starts(blocks) == Starts(old(blocks))
      ensures at == -1 || size == -1 <==> !AnyCut(Starts(blocks), last, entries, target)
      ensures at != -1 && size != -1 ==>
                && 0 <= at < |blocks| && blocks[at].loaded && blocks[at].id == at
                && CutPoint(entries, at, k, target) && size == |Flat(entries[at][..k])| && (size == 0 <==> k == 0)
    {
      Searchable(blocks, entries, |file|, last);
      size, k := -1, 0;
      at := FindBlock(Starts(blocks), last, target);
      if at == -1 {
        return;
      }
      Load(at);
      UseBlock(blocks, entries, |file|, at);
      size := FindEntry(blocks[at].data, blocks[at].size, target, entries[at]);
      k := Leading(entries[at], target);
      LeadingAreBelow(entries[at], target);
      CutsHere(Starts(blocks), last, entries, target, at, k);
    }

    /** rollback, lines 630-671. */
    method Rollback(target: Index)
      requires Valid()
      modifies this
      ensures last == old(last)
      ensures !AnyCut(Starts(old(blocks)), last, old(entries), target) ==>
                Valid() && entries == old(entries) && file == old(file)
      ensures AnyCut(Starts(old(blocks)), last, old(entries), target) ==>
                && Flat(entries) == Below(Flat(old(entries)), target)
                && (if Flat(entries) != [] then Valid() else Emptied())
                && file == Shortened(old(file), offset)
      ensures Flat(entries) == Below(Flat(old(entries)), target) <==>
                || AnyCut(Starts(old(blocks)), last, old(entries), target)
                || forall i | 0 <= i < |Flat(old(entries))| :: Less(IndexOf(Flat(old(entries))[i]), target)
    {
      BelowAll(Flat(entries), target);
      var at, size;
      ghost var k;
      at, size, k := Locate(target);
      if at != -1 && size != -1 {
        CutIsBelow(entries, at, k, target);
        Truncate(at, size, k);
      }
    }
  }

  lemma {:induction false} EntryIsContained(blocks: seq<Block>, entries: seq<seq<Entry>>, last: Index, written: nat,
                                            i: nat, k: nat)
    requires BlocksOk(blocks, entries, written) && Rising(Flat(entries)) && EndsBy(entries, last)
    requires i < |entries| && k < |entries[i]|
    ensures Contains(Starts(blocks), last, i, IndexOf(entries[i][k]))
  {
    UseBlock(blocks, entries, written, i);
    SameBlockRises(entries, i, 0, k);
    if i < |blocks| - 1 {
      UseBlock(blocks, entries, written, i + 1);
      NextBlockRises(entries, i, k);
    } else {
      EndsWithLast(entries, last, k);
    }
  }

  lemma {:induction false} NextBlockRises(entries: seq<seq<Entry>>, i: nat, k: nat)
    requires Rising(Flat(entries)) && i + 1 < |entries| && k < |entries[i]| && entries[i + 1] != []
    ensures Less(IndexOf(entries[i][k]), IndexOf(entries[i + 1][0]))
  {
    EntryInFlat(entries, i, k);
    EntryInFlat(entries, i + 1, 0);
    FlatAt(entries, i);
    assert InOrder(Flat(entries), |Flat(entries[..i])| + k, |Flat(entries[..i + 1])|);
  }

  lemma {:induction false} EndsWithLast(entries: seq<seq<Entry>>, last: Index, k: nat)
    requires entries != [] && Rising(Flat(entries)) && EndsBy(entries, last) && k < |entries[|entries| - 1]|
    ensures !Less(last, IndexOf(entries[|entries| - 1][k]))
  {
    EntryInFlat(entries, |entries| - 1, k);
    var c, n := |Flat(entries[..|entries| - 1])| + k, |Flat(entries)| - 1;
    if c < n {
      assert InOrder(Flat(entries), c, n);
    }
  }

  /** Rolling back to the index of a stored entry works exactly when findBlock reaches the block of that entry. */
  lemma {:induction false} RollbackToAnEntry(blocks: seq<Block>, entries: seq<seq<Entry>>, last: Index, written: nat,
                                             i: nat, k: nat)
    requires BlocksOk(blocks, entries, written) && Rising(Flat(entries)) && EndsBy(entries, last)
    requires i < |entries| && k < |entries[i]|
    ensures var target := IndexOf(entries[i][k]);
            AnyCut(Starts(blocks), last, entries, target) <==> Reached(Starts(blocks), last, i, target)
  {
    var target := IndexOf(entries[i][k]);
    EntryIsContained(blocks, entries, last, written, i, k);
    StartsAscend(blocks, entries, written);
    if Reached(Starts(blocks), last, i, target) {
      forall j: nat | j < k ensures Less(IndexOf(entries[i][j]), target) {
        SameBlockRises(entries, i, j, k);
      }
      CutsHere(Starts(blocks), last, entries, target, i, k);
    }
    forall j: nat | Cuts(Starts(blocks), last, entries, target, j) ensures j == i {
      ContainingBlockIsUnique(Starts(blocks), last, i, j, target);
    }
  }
}
