/**
  The room that toSolidIndexSize (database/appendingIndex.h:350-370) reserves for a frozen index, compared
  with what the writers store.
 */
module IndexSize {
  import opened Bytes
  import opened KeyOrder
  import opened AppendingIndex
  import opened SolidIndex
  import opened IndexReader
  import RecordBlock

  // ---------------------------------------------------------------- fixed-length keys

  /** The fixed case of toSolidIndexSize, line 365. */
  function FixedRoom(width: nat, all: nat, keys: nat): nat
    requires keys <= all
  {
    HEAD_SIZE + (width + 4) * (1 + keys) + 4 * all + (all - keys) / 0x7f * 4
  }

  function IdsIn(p: Posting): nat { |p.ids| }
  function IsSingle(p: Posting): nat { if |p.ids| == 1 then 1 else 0 }
  function IsLong(p: Posting): nat { if |p.ids| >= INLINE_LIMIT then 1 else 0 }
  function IsBorder(p: Posting): nat { if |p.ids| == INLINE_LIMIT then 1 else 0 }

  lemma {:induction false} ExternsSum(start: nat, ps: seq<Posting>, i: nat)
    requires i <= |ps|
    ensures ExternAt(start, ps, i) + 4 * Sum(IsSingle, ps[..i]) ==
              start + 4 * Sum(IdsIn, ps[..i]) + 4 * Sum(IsLong, ps[..i])
  {
    if i > 0 {
      var a, p := ps[..i - 1], ps[i - 1];
      ExternsSum(start, ps, i - 1);
      assert ps[..i] == a + [p];
      SumSnoc(IsSingle, a, p);
      SumSnoc(IdsIn, a, p);
      SumSnoc(IsLong, a, p);
    }
  }

  /** The image and its room differ by one word per long list, less the words of single ids and of the allowance. */
  lemma {:induction false} FixedSizeExactly(width: nat, ps: seq<Posting>)
    requires |ps| <= Sum(IdsIn, ps)
    ensures var all := Sum(IdsIn, ps);
            FixedSize(width, ps) + 4 * Sum(IsSingle, ps) + (all - |ps|) / 0x7f * 4 ==
            FixedRoom(width, all, |ps|) + 4 * Sum(IsLong, ps)
  {
    ExternsSum(ExternStart(width, ps), ps, |ps|);
    assert ps[..|ps|] == ps;
    SlotAddress(width, |ps| + 1);
  }

  /** A fixed image fits its room exactly when the long lists are covered by single ids and the allowance. */
  lemma {:induction false} FixedImageFitsWhen(width: nat, ps: seq<Posting>)
    requires |ps| <= Sum(IdsIn, ps)
    ensures var all := Sum(IdsIn, ps);
            FixedSize(width, ps) <= FixedRoom(width, all, |ps|) <==>
            Sum(IsLong, ps) <= Sum(IsSingle, ps) + (all - |ps|) / 0x7f
  {
    FixedSizeExactly(width, ps);
  }

  /** Lists longer than 0x7f pay for their own count word; only those of exactly 0x7f do not. */
  lemma {:induction false} LongListsPay(ps: seq<Posting>)
    requires forall i | 0 <= i < |ps| :: ps[i].ids != []
    ensures |ps| <= Sum(IdsIn, ps)
    ensures 0x7f * Sum(IsLong, ps) <= 0x7f * Sum(IsBorder, ps) + (Sum(IdsIn, ps) - |ps|)
  {
    if ps != [] {
      LongListsPay(ps[..|ps| - 1]);
    }
  }

  /** A fixed image exceeds its room by at most one word for each key with exactly 127 ids. */
  lemma {:induction false} FixedOverrunIsBounded(width: nat, ps: seq<Posting>)
    requires forall i | 0 <= i < |ps| :: ps[i].ids != []
    ensures |ps| <= Sum(IdsIn, ps)
    ensures FixedSize(width, ps) <= FixedRoom(width, Sum(IdsIn, ps), |ps|) + 4 * Sum(IsBorder, ps)
  {
    LongListsPay(ps);
    FixedSizeExactly(width, ps);
  }

  /** One key with 127 ids: the image is four bytes longer than its room. */
  lemma {:induction false} OverrunExample(width: nat, key: Key, ids: seq<nat>)
    requires |ids| == 0x7f
    ensures var ps := [Posting(key, ids)]; FixedSize(width, ps) == FixedRoom(width, 0x7f, 1) + 4
  {
    var p := Posting(key, ids);
    assert [p] == [] + [p];
    SumSnoc(IdsIn, [], p);
    SumSnoc(IsSingle, [], p);
    SumSnoc(IsLong, [], p);
    FixedSizeExactly(width, [p]);
  }

  lemma {:induction false} LongListsAreFew(ps: seq<Posting>)
    ensures Sum(IsLong, ps) <= Sum(IdsIn, ps)
  {
    if ps != [] {
      LongListsAreFew(ps[..|ps| - 1]);
    }
  }

  lemma Product(a: nat, b: nat, x: nat, y: nat)
    requires a <= x && b <= y
    ensures a * b <= x * y
  {
    assert a * b <= x * b;
    assert x * b <= x * y;
  }

  /** In a block, whose records are each listed at most twice, every offset and every id fits 24 bits. */
  lemma {:induction false} BlockIndexIsPackable(width: nat, ps: seq<Posting>)
    requires width <= 48 && Sum(IdsIn, ps) <= 2 * RecordBlock.MAX_RECORDS
    requires forall i | 0 <= i < |ps| :: ps[i].ids != []
    requires forall i, j | 0 <= i < |ps| && 0 <= j < |ps[i].ids| :: ps[i].ids[j] < RecordBlock.MAX_RECORDS
    ensures Packable(width, ps)
  {
    LongListsPay(ps);
    LongListsAreFew(ps);
    FixedSizeExactly(width, ps);
    Product(width + 4, 1 + |ps|, 52, 1 + 2 * RecordBlock.MAX_RECORDS);
  }

  // ---------------------------------------------------------------- keys of variable length

  /** The other case, line 367. */
  function VarRoom(keySize: nat, all: nat, keys: nat, varSize: nat): nat {
    HEAD_SIZE + (keySize + 8) * (1 + keys) + 6 * all + varSize
  }

  /** columnTypeSize of a string column, or the size of the union key's meta (lines 355-362). */
  function KeySize(kt: KeyType): nat {
    match kt
    case Single(t) => Width(t)
    case Binary => 4
    case Union(types, _) => BaseSize(types)
  }

  predicate IsVar(kt: KeyType) { kt.Binary? || (kt.Union? && !AllFixed(kt.types)) }

  function VarPartOfPosting(kt: KeyType): Posting -> nat { (p: Posting) => AppendingIndex.VarPart(kt, p.key) }

  lemma OneMore(a: nat, i: nat)
    requires i > 0
    ensures a * i == a * (i - 1) + a
  {
  }

  lemma {:induction false} VarEntriesSum(kt: KeyType, ps: seq<Posting>, i: nat)
    requires IsVar(kt) && i <= |ps|
    ensures VarAt(ps, i) <= HEAD_SIZE + 4 * (|ps| + 1) + (KeySize(kt) + 6) * i
                            + 4 * Sum(IdsIn, ps[..i]) + Sum(VarPartOfPosting(kt), ps[..i])
  {
    if i > 0 {
      var a, p := ps[..i - 1], ps[i - 1];
      VarEntriesSum(kt, ps, i - 1);
      assert ps[..i] == a + [p];
      SumSnoc(IdsIn, a, p);
      SumSnoc(VarPartOfPosting(kt), a, p);
      OneMore(KeySize(kt) + 6, i);
    }
  }

  /** What the keys of an image of variable length add to it: for union keys all but the part that every key has. */
  ghost predicate KeysReach(kt: KeyType, ps: seq<Posting>) {
    kt.Union? ==> forall i | 0 <= i < |ps| :: |ps[i].key| >= BaseSize(kt.types)
  }

  lemma {:induction false} VarEntriesExactly(kt: KeyType, ps: seq<Posting>, i: nat)
    requires IsVar(kt) && KeysReach(kt, ps) && i <= |ps|
    ensures VarAt(ps, i) == HEAD_SIZE + 4 * (|ps| + 1) + ((if kt.Union? then KeySize(kt) else 0) + 6) * i
                            + 4 * Sum(IdsIn, ps[..i]) + Sum(VarPartOfPosting(kt), ps[..i])
  {
    if i > 0 {
      var a, p := ps[..i - 1], ps[i - 1];
      VarEntriesExactly(kt, ps, i - 1);
      assert ps[..i] == a + [p];
      SumSnoc(IdsIn, a, p);
      SumSnoc(VarPartOfPosting(kt), a, p);
      OneMore((if kt.Union? then KeySize(kt) else 0) + 6, i);
    }
  }

  /** The room of an image with keys of variable length and the bytes that it leaves unused. */
  lemma {:induction false} VarSizeExactly(kt: KeyType, ps: seq<Posting>)
    requires IsVar(kt) && KeysReach(kt, ps)
    ensures VarRoom(KeySize(kt), Sum(IdsIn, ps), |ps|, Sum(VarPartOfPosting(kt), ps)) + 2 * |ps|
            == VarSize(ps) + KeySize(kt) + 4 + 2 * Sum(IdsIn, ps) + if kt.Union? then 0 else 4 * |ps|
  {
    VarEntriesExactly(kt, ps, |ps|);
    assert ps[..|ps|] == ps;
    Distribute(KeySize(kt), |ps|);
    if !kt.Union? {
      assert KeySize(kt) == 4;
    }
  }

  /** An image with keys of variable length never exceeds its room. */
  lemma {:induction false} VarImageFits(kt: KeyType, ps: seq<Posting>)
    requires IsVar(kt) && forall i | 0 <= i < |ps| :: ps[i].ids != []
    ensures VarSize(ps) <= VarRoom(KeySize(kt), Sum(IdsIn, ps), |ps|, Sum(VarPartOfPosting(kt), ps))
  {
    var k, n := KeySize(kt), |ps|;
    VarEntriesSum(kt, ps, n);
    assert ps[..n] == ps;
    LongListsPay(ps);
    Distribute(k, n);
  }

  lemma Distribute(k: nat, n: nat)
    ensures (k + 8) * (1 + n) == (k + 6) * n + 2 * n + (k + 8)
  {
  }

  // ---------------------------------------------------------------- the counters of the live index

  lemma {:induction false} SumsOfLists(kt: KeyType, nodes: seq<Node>, ps: seq<Posting>)
    requires Lists(ps, nodes)
    ensures Sum(IdsIn, ps) == Sum(IdCount, nodes) && Sum(VarPartOfPosting(kt), ps) == Sum(VarPartOf(kt), nodes)
  {
    if ps != [] {
      var n := |ps| - 1;
      SumsOfLists(kt, nodes[..n], ps[..n]);
    }
  }

  /** toSolidIndexSize computes these rooms from the counters that append keeps. */
  lemma {:induction false} RoomFromCounters(kt: KeyType, nodes: seq<Node>, history: seq<Appended>, varSize: nat,
                                            ps: seq<Posting>)
    requires CountsOk(kt, nodes, history, varSize) && Lists(ps, nodes)
    ensures Sum(IdsIn, ps) == |history| && |ps| <= |history|
    ensures IsVar(kt) ==> VarSize(ps) <= VarRoom(KeySize(kt), |history|, |ps|, varSize)
    ensures FixedSize(KeySize(kt), ps) <= FixedRoom(KeySize(kt), |history|, |ps|) + 4 * Sum(IsBorder, ps)
  {
    PostingsOfIndex(kt, nodes, history, ps);
    SumsOfLists(kt, nodes, ps);
    FixedOverrunIsBounded(KeySize(kt), ps);
    if IsVar(kt) {
      VarImageFits(kt, ps);
    }
  }
}
