/**
  From the live index of a block to its frozen image and back: the postings that the writers are given
  satisfy their conditions, and a search in the image answers what the live index would.
 */
module FrozenIndex {
  import opened Bytes
  import opened Options
  import opened KeyOrder
  import opened AppendingIndex
  import opened SolidIndex
  import opened IndexReader
  import opened IndexSize
  import RecordBlock

  /** What was appended to an index of one block: its records, each under at most two keys. */
  ghost predicate InBlock(history: seq<Appended>) {
    |history| <= 2 * RecordBlock.MAX_RECORDS && forall i | 0 <= i < |history| :: history[i].id < RecordBlock.MAX_RECORDS
  }

  lemma {:induction false} IdsInBlock(history: seq<Appended>, key: Key)
    requires InBlock(history)
    ensures |IdsOf(history, key)| <= |history|
    ensures forall i | 0 <= i < |IdsOf(history, key)| :: IdsOf(history, key)[i] < RecordBlock.MAX_RECORDS
  {
    if history != [] {
      IdsInBlock(history[..|history| - 1], key);
    }
  }

  /** The postings of an index, in the order of its skip list. */
  ghost function Postings(nodes: seq<Node>): (ps: seq<Posting>)
    ensures |ps| == |nodes|
  {
    seq(|nodes|, i requires 0 <= i < |nodes| => PostingOf(nodes[i]))
  }

  /** toSolidIndexSize, lines 350-370: the room that is allocated for the image. */
  function Room(kt: KeyType, keys: nat, all: nat, varSize: nat): nat
    requires keys <= all
  {
    if IsVar(kt) then VarRoom(KeySize(kt), all, keys, varSize) else FixedRoom(KeySize(kt), all, keys)
  }

  /** The condition of FixedImageFitsWhen: single ids and the allowance pay for the counts of long lists. */
  ghost predicate LongListsCovered(ps: seq<Posting>) {
    |ps| <= Sum(IdsIn, ps) && Sum(IsLong, ps) <= Sum(IsSingle, ps) + (Sum(IdsIn, ps) - |ps|) / 0x7f
  }

  /** The image fits the room that is allocated for it, and its offsets fit their words. */
  ghost predicate Freezable(kt: KeyType, nodes: seq<Node>, all: nat, varSize: nat) {
    if IsVar(kt) then VarRoom(KeySize(kt), all, |nodes|, varSize) < WORD32
    else LongListsCovered(Postings(nodes)) && FixedSize(KeySize(kt), Postings(nodes)) <= OFFSET_LIMIT
  }

  lemma KeysOfIndex(kt: KeyType, k: Key)
    requires Orderly(kt) && KeyOk(kt, k)
    ensures |k| < WORD16 && (!IsVar(kt) ==> |k| == KeySize(kt))
  {
    if kt.Union? {
      LengthOfKey(kt.types, k);
    }
  }

  /** The postings of an index of a block are what the writers and the decoders ask for. */
  lemma PostingsOfBlock(kt: KeyType, nodes: seq<Node>, history: seq<Appended>, varSize: nat, ps: seq<Posting>)
    requires CountsOk(kt, nodes, history, varSize) && Lists(ps, nodes) && InBlock(history)
    ensures if IsVar(kt) then VarPostingsOk(ps) else PostingsOk(KeySize(kt), ps)
    ensures forall i | 0 <= i < |ps| :: ps[i].ids != []
    ensures forall i, j | 0 <= i < |ps| && 0 <= j < |ps[i].ids| :: ps[i].ids[j] < RecordBlock.MAX_RECORDS
    ensures |ps| <= Sum(IdsIn, ps) == |history|
  {
    PostingsOfIndex(kt, nodes, history, ps);
    RoomFromCounters(kt, nodes, history, varSize, ps);
    forall i | 0 <= i < |ps|
      ensures IdsOk(ps[i].ids) && |ps[i].key| < WORD16 && (!IsVar(kt) ==> |ps[i].key| == KeySize(kt))
      ensures forall j | 0 <= j < |ps[i].ids| :: ps[i].ids[j] < RecordBlock.MAX_RECORDS
    {
      IdsInBlock(history, ps[i].key);
      KeysOfIndex(kt, ps[i].key);
    }
  }

  /** For fixed keys of up to 48 bytes, such as every single column, only the long lists matter. */
  lemma SmallKeysAreFreezable(kt: KeyType, nodes: seq<Node>, history: seq<Appended>, varSize: nat)
    requires CountsOk(kt, nodes, history, varSize) && Lists(Postings(nodes), nodes) && InBlock(history)
    requires !IsVar(kt) && KeySize(kt) <= 48
    ensures Freezable(kt, nodes, |history|, varSize) <==> LongListsCovered(Postings(nodes))
  {
    PostingsOfBlock(kt, nodes, history, varSize, Postings(nodes));
    BlockIndexIsPackable(KeySize(kt), Postings(nodes));
  }

  /** The allocated room is as long as the image if and only if, for fixed keys, the long lists are covered. */
  lemma RoomSuffices(kt: KeyType, nodes: seq<Node>, history: seq<Appended>, varSize: nat)
    requires CountsOk(kt, nodes, history, varSize) && InBlock(history)
    ensures |nodes| <= |history|
    ensures var ps := Postings(nodes);
            if IsVar(kt) then VarSize(ps) <= Room(kt, |nodes|, |history|, varSize)
            else FixedSize(KeySize(kt), ps) <= Room(kt, |nodes|, |history|, varSize) <==> LongListsCovered(ps)
  {
    var ps := Postings(nodes);
    IsLists(kt, nodes, history);
    PostingsOfBlock(kt, nodes, history, varSize, ps);
    RoomFromCounters(kt, nodes, history, varSize, ps);
    FixedImageFitsWhen(KeySize(kt), ps);
  }

  lemma IsLists(kt: KeyType, nodes: seq<Node>, history: seq<Appended>)
    requires NodesOk(kt, nodes, history)
    ensures Lists(Postings(nodes), nodes)
  {
    forall i | 0 <= i < |nodes| ensures nodes[i].count <= |nodes[i].slots| {
      assert NodeOk(kt, nodes[i], history);
    }
  }

  /** An image that the writer of the index's layout has made. */
  ghost predicate IsImage(kt: KeyType, s: seq<byte>, ps: seq<Posting>, kind: byte) {
    if IsVar(kt) then IsVarImage(s, ps, kind) else IsFixedImage(s, KeySize(kt), ps, kind)
  }

  function ImageSize(kt: KeyType, ps: seq<Posting>): nat {
    if IsVar(kt) then VarSize(ps) else FixedSize(KeySize(kt), ps)
  }

  /** createSolidIndexPage keeps as many bytes as the head states; that is the whole image. */
  lemma ImageCut(kt: KeyType, nodes: seq<Node>, history: seq<Appended>, varSize: nat, s: seq<byte>, kind: byte)
    requires CountsOk(kt, nodes, history, varSize) && InBlock(history) && history != []
    requires IsImage(kt, s, Postings(nodes), kind) && ImageSize(kt, Postings(nodes)) <= |s|
    ensures IsImage(kt, s[..ImageSize(kt, Postings(nodes))], Postings(nodes), kind)
  {
    var ps := Postings(nodes);
    IsLists(kt, nodes, history);
    HasNode(kt, nodes, history);
    PostingsOfBlock(kt, nodes, history, varSize, ps);
    if IsVar(kt) {
      VarCut(s, ps, kind);
    } else {
      FixedCut(s, KeySize(kt), ps, kind);
    }
  }

  /** The image that the writer of the index's layout makes decodes to the postings of the index. */
  lemma ImageDecodes(kt: KeyType, nodes: seq<Node>, history: seq<Appended>, varSize: nat, s: seq<byte>, kind: byte)
    requires CountsOk(kt, nodes, history, varSize) && InBlock(history) && history != []
    requires Freezable(kt, nodes, |history|, varSize)
    requires IsImage(kt, s, Postings(nodes), kind)
    ensures Represents(s, Postings(nodes)) && UsedSize(s) == ImageSize(kt, Postings(nodes)) && KeyKind(s) == kind
  {
    var ps := Postings(nodes);
    IsLists(kt, nodes, history);
    PostingsOfBlock(kt, nodes, history, varSize, ps);
    RoomFromCounters(kt, nodes, history, varSize, ps);
    if IsVar(kt) {
      VarImageDecodes(s, ps, kind);
    } else {
      assert ps != [] && |ps[0].key| == KeySize(kt) && |ps[0].key| < WORD16 by {
        HasNode(kt, nodes, history);
        KeysOfIndex(kt, nodes[0].key);
      }
      FixedImageDecodes(s, KeySize(kt), ps, kind);
    }
  }

  lemma HasNode(kt: KeyType, nodes: seq<Node>, history: seq<Appended>)
    requires NodesOk(kt, nodes, history) && history != []
    ensures nodes != [] && KeyOk(kt, nodes[0].key)
  {
    assert HasKey(nodes, history[0].key);
    assert NodeOk(kt, nodes[0], history);
  }

  /** The skip list's iterator: every key with the used part of its array. */
  method Iterate(nodes: seq<Node>) returns (ps: seq<Posting>)
    ensures ps == Postings(nodes)
  {
    ps := [];
    for i := 0 to |nodes|
      invariant ps == Postings(nodes)[..i]
    {
      ps := ps + [PostingOf(nodes[i])];
    }
  }

  /**
    toString, lines 371-397, and createSolidIndexPage: nothing for an empty index; else an image in a buffer of
    zeros of the computed size, of which the page keeps as much as the head states.
   */
  method Freeze(index: Index, kind: byte) returns (image: Option<seq<byte>>)
    requires index.Valid() && InBlock(index.history) && Freezable(index.kt, index.nodes, index.allCount, index.varSize)
    ensures image.None? <==> index.history == []
    ensures image.Some? ==> Represents(image.value, Postings(index.nodes))
    ensures image.Some? ==>
              && index.keyCount <= index.allCount
              && UsedSize(image.value) == |image.value| <= Room(index.kt, index.keyCount, index.allCount, index.varSize)
              && KeyKind(image.value) == kind
  {
    ghost var nodes, history := index.nodes, index.history;
    IsLists(index.kt, nodes, history);
    PostingsOfBlock(index.kt, nodes, history, index.varSize, Postings(nodes));
    RoomSuffices(index.kt, nodes, history, index.varSize);
    if index.nodes == [] {
      assert Sum(IdCount, nodes) == 0;
      return None;
    }
    SomeNode(index.kt, nodes, history);
    var ps := Iterate(index.nodes);
    var data := new byte[Room(index.kt, index.keyCount, index.allCount, index.varSize)](_ => 0);
    if IsVar(index.kt) {
      CreateVar(data, ps, kind);
    } else {
      CreateFixed(data, ps, KeySize(index.kt), kind);
    }
    ImageDecodes(index.kt, nodes, history, index.varSize, data[..], kind);
    ImageCut(index.kt, nodes, history, index.varSize, data[..], kind);
    ImageDecodes(index.kt, nodes, history, index.varSize, data[..UsedSize(data[..])], kind);
    image := Some(data[..UsedSize(data[..])]);
  }

  lemma SomeNode(kt: KeyType, nodes: seq<Node>, history: seq<Appended>)
    requires NodesOk(kt, nodes, history) && nodes != []
    ensures history != []
  {
    assert NodeOk(kt, nodes[0], history);
  }

  /**
    A live index is frozen and a key is looked up in the image: it is found exactly when it was appended,
    with all its ids in order, the last of which is what the live index answers; otherwise both find nothing.
   */
  method FreezeAndLookUp(index: Index, kind: byte, key: Key) returns (found: bool, ids: seq<nat>, latest: int)
    requires index.Valid() && InBlock(index.history) && KeyOk(index.kt, key)
    requires Freezable(index.kt, index.nodes, index.allCount, index.varSize)
    ensures found <==> IdsOf(index.history, key) != []
    ensures found ==> ids == IdsOf(index.history, key) && latest == ids[|ids| - 1]
    ensures !found ==> latest == -1
  {
    var image := Freeze(index, kind);
    latest := index.Find(key);
    found, ids := false, [];
    if image.Some? {
      ghost var ps := Postings(index.nodes);
      IsLists(index.kt, index.nodes, index.history);
      PostingsOfIndex(index.kt, index.nodes, index.history, ps);
      FreezingPreserves(index.kt, index.nodes, index.history, ps, image.value, key);
      found, ids := LookUp(index.kt, image.value, key, ps);
    }
  }
}
