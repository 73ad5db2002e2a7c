/**
  Reading a frozen index (database/solidIndex.h and .cpp): decoding slot i of an image, binary search,
  and the agreement of the image with the live index it was made from.
 */
module IndexReader {
  import opened Bytes
  import opened Options
  import opened KeyOrder
  import opened AppendingIndex
  import opened SolidIndex

  // ---------------------------------------------------------------- decoding

  function KeyCount(s: seq<byte>): nat
    requires HEAD_SIZE <= |s|
  {
    GetU32(s, 4)
  }

  /** The size that the head states: createSolidIndexPage takes it for the used size of the page. */
  function UsedSize(s: seq<byte>): nat
    requires HEAD_SIZE <= |s|
  {
    GetU32(s, 0)
  }

  /** The type in the head, by which the reader of a page chooses its search. */
  function KeyKind(s: seq<byte>): byte
    requires HEAD_SIZE <= |s|
  {
    s[8]
  }

  function Slice(s: seq<byte>, at: nat, n: nat): Option<seq<byte>> {
    if at + n <= |s| then Some(s[at..at + n]) else None
  }

  function IdArray(s: seq<byte>, at: nat, n: nat): Option<seq<nat>> {
    if at + 4 * n <= |s| then Some(ReadWords(s, at, n)) else None
  }

  /** The ids that the word at `at` stands for or leads to. */
  function IdsOfWord(s: seq<byte>, at: nat): Option<seq<nat>>
    requires at + 4 <= |s|
  {
    var info := GetU32(s, at);
    var offset := info % OFFSET_LIMIT;
    if info / OFFSET_LIMIT == 0 then IdArray(s, at, 1)
    else if info / OFFSET_LIMIT < LONG_MARK then IdArray(s, offset, info / OFFSET_LIMIT)
    else if offset + 4 > |s| then None
    else IdArray(s, offset + 4, GetU32(s, offset))
  }

  /** fixedSolidIndex::getRecordIdByIndex, solidIndex.h lines 128-147. */
  function FixedIds(s: seq<byte>, i: nat): Option<seq<nat>>
    requires HEAD_SIZE <= |s|
  {
    var length := GetU16(s, 10);
    var at := SlotAt(length, i) + length;
    if at + 4 > |s| then None else IdsOfWord(s, at)
  }

  function FixedKey(s: seq<byte>, i: nat): Option<Key>
    requires HEAD_SIZE <= |s|
  {
    var length := GetU16(s, 10);
    Slice(s, SlotAt(length, i), length)
  }

  /** varSolidIndex::getKey, lines 67-70: the entry's offset from the table. */
  function VarOffset(s: seq<byte>, i: nat): Option<nat> {
    if HEAD_SIZE + 4 * i + 4 > |s| then None
    else
      var at := GetU32(s, HEAD_SIZE + 4 * i);
      if at + 2 > |s| then None else Some(at)
  }

  function VarKey(s: seq<byte>, i: nat): Option<Key> {
    match VarOffset(s, i)
    case None => None
    case Some(at) => if at + 2 > |s| then None else Slice(s, at + 2, GetU16(s, at))
  }

  /** varSolidIndex::getRecordIdByIndex, lines 34-39. */
  function VarIds(s: seq<byte>, i: nat): Option<seq<nat>> {
    match VarOffset(s, i)
    case None => None
    case Some(at) =>
      if at + 2 > |s| then None
      else
        var ids := at + GetU16(s, at) + 2 + 4;
        if ids > |s| then None else IdArray(s, ids, GetU32(s, ids - 4))
  }

  /** The flag in the head tells which of the two layouts an image has. */
  predicate IsFixed(s: seq<byte>)
    requires HEAD_SIZE <= |s|
  {
    s[9] == FLAG_FIXED
  }

  function KeyAt(s: seq<byte>, i: nat): Option<Key>
    requires HEAD_SIZE <= |s|
  {
    if IsFixed(s) then FixedKey(s, i) else VarKey(s, i)
  }

  function IdsAt(s: seq<byte>, i: nat): Option<seq<nat>>
    requires HEAD_SIZE <= |s|
  {
    if IsFixed(s) then FixedIds(s, i) else VarIds(s, i)
  }

  ghost predicate DecodesTo(s: seq<byte>, i: nat, p: Posting)
    requires HEAD_SIZE <= |s|
  {
    KeyAt(s, i) == Some(p.key) && IdsAt(s, i) == Some(p.ids)
  }

  /** The image holds exactly these postings, in this order. */
  ghost predicate Represents(s: seq<byte>, ps: seq<Posting>) {
    && HEAD_SIZE <= |s| && KeyCount(s) == |ps|
    && (forall i: nat {:trigger DecodesTo(s, i, ps[i])} | i < |ps| :: DecodesTo(s, i, ps[i]))
  }

  // ---------------------------------------------------------------- images decode to what was written

  lemma HeadParts(size: nat, count: nat, kind: byte, flag: byte, length: nat)
    ensures var h := Head(size, count, kind, flag, length);
            && |h| == HEAD_SIZE && h[0..4] == U32(size) && h[4..8] == U32(count) && h[8..9] == [kind]
            && h[9..10] == [flag] && h[10..12] == U16(length)
  {
  }

  lemma HeadFields(s: seq<byte>, size: nat, count: nat, kind: byte, flag: byte, length: nat)
    requires Holds(s, 0, Head(size, count, kind, flag, length)) && size < WORD32 && count < WORD32 && length < WORD16
    ensures HEAD_SIZE <= |s| && GetU32(s, 4) == count && s[9] == flag && GetU16(s, 10) == length
    ensures UsedSize(s) == size && KeyKind(s) == kind
  {
    var h := Head(size, count, kind, flag, length);
    HeadParts(size, count, kind, flag, length);
    HoldsPart(s, 0, h, 0, 4);
    HoldsPart(s, 0, h, 4, 8);
    HoldsPart(s, 0, h, 8, 9);
    HoldsPart(s, 0, h, 9, 10);
    HoldsPart(s, 0, h, 10, 12);
    assert s[8..9][0] == s[8] && s[9..10][0] == s[9];
    StoredWord(size);
    StoredWord(count);
    StoredWord(length);
  }

  /** The offsets fit into 24 bits and so does every id that stands alone. */
  ghost predicate Packable(width: nat, ps: seq<Posting>) {
    && FixedSize(width, ps) <= OFFSET_LIMIT
    && (forall i | 0 <= i < |ps| && |ps[i].ids| == 1 :: ps[i].ids[0] < OFFSET_LIMIT)
  }

  lemma {:induction false} ExternFits(width: nat, ps: seq<Posting>, i: nat)
    requires i < |ps| && PostingsOk(width, ps) && Packable(width, ps) && |ps[i].ids| != 1
    ensures ExternAt(ExternStart(width, ps), ps, i) < OFFSET_LIMIT
  {
    SlotEnds(width, ps, i);
  }

  lemma {:induction false} WordFits(width: nat, ps: seq<Posting>, i: nat)
    requires i < |ps| && PostingsOk(width, ps) && Packable(width, ps)
    ensures PackedWord(ps[i].ids, ExternAt(ExternStart(width, ps), ps, i)) < WORD32
  {
    if |ps[i].ids| != 1 {
      ExternFits(width, ps, i);
      PackedWordParts(ps[i].ids, ExternAt(ExternStart(width, ps), ps, i));
    }
  }

  /** The key and the word found in slot i. */
  lemma FixedSlot(s: seq<byte>, at: nat, key: Key, word: nat)
    requires Holds(s, at, key + U32(word)) && word < WORD32
    ensures at + |key| + 4 <= |s| && s[at..at + |key|] == key
    ensures GetU32(s, at + |key|) == word && Holds(s, at + |key|, U32(word))
  {
    HoldsJoin(s, at, key, U32(word));
    HeldWord(s, at + |key|, word);
  }

  lemma {:induction false} OneId(s: seq<byte>, at: nat, ids: seq<nat>)
    requires |ids| == 1 && ids[0] < WORD32 && Holds(s, at, U32(ids[0]))
    ensures IdArray(s, at, 1) == Some(ids)
  {
    assert ids[..0] == [] && Words(ids[..0]) == [];
    assert Words(ids) == Words(ids[..0]) + U32(ids[0]) == U32(ids[0]);
    ReadBack(s, at, ids);
  }

  lemma {:induction false} CountedIds(s: seq<byte>, at: nat, ids: seq<nat>)
    requires Holds(s, at, U32(|ids|) + Words(ids)) && IdsOk(ids)
    ensures at + 4 <= |s| && GetU32(s, at) == |ids| && IdArray(s, at + 4, |ids|) == Some(ids)
  {
    HoldsJoin(s, at, U32(|ids|), Words(ids));
    HeldWord(s, at, |ids|);
    ReadBack(s, at + 4, ids);
  }

  lemma {:induction false} WordDecodes(s: seq<byte>, at: nat, ids: seq<nat>, ext: nat, word: nat)
    requires IdsOk(ids) && at + 4 <= |s| && GetU32(s, at) == word && Holds(s, at, U32(word))
    requires Holds(s, ext, Extern(ids))
    requires if |ids| == 1 then word == ids[0] < OFFSET_LIMIT
             else word / OFFSET_LIMIT == Mark(|ids|) && word % OFFSET_LIMIT == ext
    ensures IdsOfWord(s, at) == Some(ids)
  {
    if |ids| == 1 {
      OneId(s, at, ids);
    } else if |ids| < INLINE_LIMIT {
      ReadBack(s, ext, ids);
    } else {
      CountedIds(s, ext, ids);
    }
  }

  lemma {:induction false} FixedDecodes(s: seq<byte>, width: nat, ps: seq<Posting>, i: nat)
    requires i < |ps| && PostingsOk(width, ps) && Packable(width, ps) && PostingHeld(s, width, ps, i)
    requires HEAD_SIZE <= |s| && GetU16(s, 10) == width
    ensures FixedKey(s, i) == Some(ps[i].key) && FixedIds(s, i) == Some(ps[i].ids)
  {
    var ids, ext := ps[i].ids, ExternAt(ExternStart(width, ps), ps, i);
    WordFits(width, ps, i);
    FixedSlot(s, SlotAt(width, i), ps[i].key, PackedWord(ids, ext));
    if |ids| != 1 {
      ExternFits(width, ps, i);
      PackedWordParts(ids, ext);
    }
    WordDecodes(s, SlotAt(width, i) + width, ids, ext, PackedWord(ids, ext));
  }

  /** A fixed image whose offsets fit decodes to the postings it was written from. */
  lemma {:induction false} FixedImageDecodes(s: seq<byte>, width: nat, ps: seq<Posting>, kind: byte)
    requires IsFixedImage(s, width, ps, kind) && PostingsOk(width, ps) && Packable(width, ps)
    requires width < WORD16 && |ps| < WORD32
    ensures Represents(s, ps) && UsedSize(s) == FixedSize(width, ps) && KeyKind(s) == kind
  {
    HeadFields(s, FixedSize(width, ps), |ps|, kind, FLAG_FIXED, width);
    forall i: nat | i < |ps| ensures DecodesTo(s, i, ps[i]) {
      assert PostingHeld(s, width, ps, i);
      FixedDecodes(s, width, ps, i);
    }
  }

  ghost predicate VarPostingsOk(ps: seq<Posting>) {
    forall i | 0 <= i < |ps| :: |ps[i].key| < WORD16 && IdsOk(ps[i].ids)
  }

  lemma {:induction false} VarKeyDecodes(s: seq<byte>, at: nat, key: Key)
    requires Holds(s, at, U16(|key|) + key) && |key| < WORD16
    ensures at + 2 <= |s| && GetU16(s, at) == |key| && Slice(s, at + 2, |key|) == Some(key)
  {
    HoldsJoin(s, at, U16(|key|), key);
    HeldHalf(s, at, |key|);
  }

  lemma {:induction false} VarEntryDecodes(s: seq<byte>, at: nat, p: Posting)
    requires Holds(s, at, VarEntry(p)) && |p.key| < WORD16 && IdsOk(p.ids)
    ensures at + 2 <= |s| && GetU16(s, at) == |p.key| && Slice(s, at + 2, |p.key|) == Some(p.key)
    ensures var c := at + 2 + |p.key|;
            c + 4 <= |s| && GetU32(s, c) == |p.ids| && IdArray(s, c + 4, |p.ids|) == Some(p.ids)
  {
    HoldsJoin(s, at, U16(|p.key|) + p.key, U32(|p.ids|) + Words(p.ids));
    VarKeyDecodes(s, at, p.key);
    CountedIds(s, at + 2 + |p.key|, p.ids);
  }

  lemma {:induction false} VarOffsetIs(s: seq<byte>, ps: seq<Posting>, i: nat)
    requires i < |ps| && VarSize(ps) < WORD32 && VarHeld(s, ps, i)
    ensures VarOffset(s, i) == Some(VarAt(ps, i))
  {
    VarRise(ps, i, |ps|);
    HeldWord(s, HEAD_SIZE + 4 * i, VarAt(ps, i));
  }

  /** Key and ids of the entry at `at`. */
  lemma {:induction false} VarParts(s: seq<byte>, at: nat, p: Posting, i: nat)
    requires VarOffset(s, i) == Some(at) && Holds(s, at, VarEntry(p)) && |p.key| < WORD16 && IdsOk(p.ids)
    ensures VarKey(s, i) == Some(p.key) && VarIds(s, i) == Some(p.ids)
  {
    VarEntryDecodes(s, at, p);
  }

  lemma {:induction false} VarDecode(s: seq<byte>, ps: seq<Posting>, i: nat)
    requires i < |ps| && VarPostingsOk(ps) && VarSize(ps) < WORD32 && VarHeld(s, ps, i)
    ensures VarKey(s, i) == Some(ps[i].key) && VarIds(s, i) == Some(ps[i].ids)
  {
    VarOffsetIs(s, ps, i);
    VarParts(s, VarAt(ps, i), ps[i], i);
  }

  /** A variable-length image below 4 GB decodes to the postings it was written from. */
  lemma {:induction false} VarImageDecodes(s: seq<byte>, ps: seq<Posting>, kind: byte)
    requires IsVarImage(s, ps, kind) && VarPostingsOk(ps) && VarSize(ps) < WORD32 && |ps| < WORD32
    ensures Represents(s, ps) && UsedSize(s) == VarSize(ps) && KeyKind(s) == kind
  {
    HeadFields(s, VarSize(ps), |ps|, kind, 0, 4);
    forall i: nat | i < |ps| ensures DecodesTo(s, i, ps[i]) {
      assert VarHeld(s, ps, i);
      VarDecode(s, ps, i);
    }
  }

  // ---------------------------------------------------------------- searching

  ghost predicate SortedPostings(kt: KeyType, ps: seq<Posting>) {
    && (forall i | 0 <= i < |ps| :: KeyOk(kt, ps[i].key))
    && (forall i, j | 0 <= i < j < |ps| :: Less(kt, ps[i].key, ps[j].key))
  }

  ghost predicate HasPosting(ps: seq<Posting>, key: Key) {
    exists i :: 0 <= i < |ps| && ps[i].key == key
  }

  /** The nearest position for an absent key: the first greater key, or the last key when all are less. */
  ghost predicate Nearest(kt: KeyType, ps: seq<Posting>, key: Key, at: int) {
    if ps == [] then at == 0
    else
      && 0 <= at < |ps|
      && (forall i | 0 <= i < at :: Less(kt, ps[i].key, key))
      && (Less(kt, key, ps[at].key) || (at == |ps| - 1 && Less(kt, ps[at].key, key)))
  }

  lemma Probe(kt: KeyType, ps: seq<Posting>, key: Key, m: nat)
    requires Orderly(kt) && SortedPostings(kt, ps) && KeyOk(kt, key) && m < |ps|
    ensures Compare(kt, key, ps[m].key) > 0 ==> forall i | 0 <= i <= m :: Less(kt, ps[i].key, key)
    ensures Compare(kt, key, ps[m].key) < 0 ==> forall i | m <= i < |ps| :: Less(kt, key, ps[i].key)
    ensures Compare(kt, key, ps[m].key) == 0 ==> ps[m].key == key
  {
    KeysAreTotallyOrdered(kt, key, ps[m].key);
    if Compare(kt, key, ps[m].key) > 0 {
      forall i | 0 <= i < m ensures Less(kt, ps[i].key, key) {
        LessIsTransitive(kt, ps[i].key, ps[m].key, key);
      }
    } else if Compare(kt, key, ps[m].key) < 0 {
      forall i | m < i < |ps| ensures Less(kt, key, ps[i].key) {
        LessIsTransitive(kt, key, ps[m].key, ps[i].key);
      }
    }
  }

  lemma NotThere(kt: KeyType, ps: seq<Posting>, key: Key, s: nat)
    requires Orderly(kt) && KeyOk(kt, key) && s <= |ps|
    requires forall i | 0 <= i < s :: Less(kt, ps[i].key, key)
    requires forall i | s <= i < |ps| :: Less(kt, key, ps[i].key)
    ensures !HasPosting(ps, key)
  {
    forall i | 0 <= i < |ps| ensures ps[i].key != key {
      LessIsTotal(kt, key, key);
    }
  }

  /** find, solidIndex.h lines 92-118 and solidIndex.cpp lines 11-104; `exact` is the source's equalOrGreater. */
  method Find(kt: KeyType, image: seq<byte>, key: Key, exact: bool, ghost ps: seq<Posting>) returns (at: int)
    requires Orderly(kt) && KeyOk(kt, key) && Represents(image, ps) && SortedPostings(kt, ps)
    ensures HasPosting(ps, key) ==> 0 <= at < |ps| && ps[at].key == key
    ensures !HasPosting(ps, key) ==> if exact then at == -1 else Nearest(kt, ps, key, at)
  {
    var s, e, m := 0, KeyCount(image) - 1, 0;
    while s <= e
      invariant 0 <= s <= e + 1 <= |ps|
      invariant forall i | 0 <= i < s :: Less(kt, ps[i].key, key)
      invariant forall i | e < i < |ps| :: Less(kt, key, ps[i].key)
      invariant s == |ps| > 0 ==> m == |ps| - 1
    {
      m := (s + e) / 2;
      assert DecodesTo(image, m, ps[m]);
      Probe(kt, ps, key, m);
      var c := Compare(kt, key, KeyAt(image, m).value);
      if c > 0 {
        s := m + 1;
      } else if c < 0 {
        e := m - 1;
      } else {
        return m;
      }
    }
    NotThere(kt, ps, key, s);
    at := if exact then -1 else if e < 0 then 0 else if s < KeyCount(image) then s else m;
  }

  /** find with its result list, solidIndex.h lines 40-48 and 148-156, for an exact search. */
  method LookUp(kt: KeyType, image: seq<byte>, key: Key, ghost ps: seq<Posting>) returns (found: bool, ids: seq<nat>)
    requires Orderly(kt) && KeyOk(kt, key) && Represents(image, ps) && SortedPostings(kt, ps)
    ensures found <==> HasPosting(ps, key)
    ensures forall i | 0 <= i < |ps| && ps[i].key == key :: ids == ps[i].ids
  {
    var at := Find(kt, image, key, true, ps);
    found, ids := at >= 0, [];
    if found {
      assert DecodesTo(image, at, ps[at]);
      ids := IdsAt(image, at).value;
      forall i | 0 <= i < |ps| && i != at ensures ps[i].key != key {
        LessIsTotal(kt, ps[i].key, ps[at].key);
        assert Less(kt, ps[i].key, ps[at].key) || Less(kt, ps[at].key, ps[i].key);
      }
    }
  }

  // ---------------------------------------------------------------- the frozen index is the live index

  function PostingOf(n: Node): Posting {
    Posting(n.key, if n.count <= |n.slots| then n.slots[..n.count] else n.slots)
  }

  /** What the skip list's iterator hands to the writers. */
  ghost predicate Lists(ps: seq<Posting>, nodes: seq<Node>) {
    |ps| == |nodes| && forall i | 0 <= i < |ps| :: nodes[i].count <= |nodes[i].slots| && ps[i] == PostingOf(nodes[i])
  }

  lemma PostingsOfIndex(kt: KeyType, nodes: seq<Node>, history: seq<Appended>, ps: seq<Posting>)
    requires NodesOk(kt, nodes, history) && Lists(ps, nodes)
    ensures SortedPostings(kt, ps)
    ensures forall i | 0 <= i < |ps| :: ps[i].ids == IdsOf(history, ps[i].key) != []
  {
    forall i | 0 <= i < |ps| ensures ps[i].ids == IdsOf(history, ps[i].key) != [] && KeyOk(kt, ps[i].key) {
      assert NodeOk(kt, nodes[i], history);
    }
  }

  /**
    In the frozen image of an index every key that was ever appended has one slot, with all its ids in order;
    no other key has one.
   */
  lemma FreezingPreserves(kt: KeyType, nodes: seq<Node>, history: seq<Appended>, ps: seq<Posting>, s: seq<byte>,
                          key: Key)
    requires Orderly(kt) && NodesOk(kt, nodes, history) && Lists(ps, nodes) && Represents(s, ps) && KeyOk(kt, key)
    ensures SortedPostings(kt, ps)
    ensures IdsOf(history, key) != [] <==> exists i: nat :: i < KeyCount(s) && KeyAt(s, i) == Some(key)
    ensures forall i: nat | i < KeyCount(s) && KeyAt(s, i) == Some(key) :: IdsAt(s, i) == Some(IdsOf(history, key))
    ensures HasPosting(ps, key) <==> IdsOf(history, key) != []
  {
    PostingsOfIndex(kt, nodes, history, ps);
    forall i: nat | i < KeyCount(s) && KeyAt(s, i) == Some(key)
      ensures IdsOf(history, key) != [] && ps[i].key == key && IdsAt(s, i) == Some(IdsOf(history, key))
    {
      assert DecodesTo(s, i, ps[i]);
    }
    if IdsOf(history, key) != [] {
      IdsOfAbsent(history, key);
      var j :| 0 <= j < |history| && history[j].key == key;
      assert HasKey(nodes, history[j].key);
      var i: nat :| i < |nodes| && nodes[i].key == key;
      assert DecodesTo(s, i, ps[i]);
      assert ps[i].key == key;
    }
  }
}
