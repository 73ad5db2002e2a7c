/**
  The buddy allocator of memory/buddySystem.h: the ring of buffers of one top-level block, which is split
  into halves and merged again, and the level lists from which buffers are handed out. Offsets are counted
  in units of the base size.
 */
module Buddy {
  import opened Bits

  datatype Buf = Buf(offset: nat, level: nat, mask: nat, free: bool)

  // ---------------------------------------------------------------- tilings

  /** A buffer lies on a multiple of its size, and its mask is its offset under a bit for the top level. */
  ghost predicate BufOk(b: Buf, levels: nat) {
    b.level <= levels && Multiple(b.offset, b.level) && b.mask == Pow2(levels) + b.offset
  }

  ghost function End(b: Buf): nat { b.offset + Pow2(b.level) }

  /** Following the next pointers from the top buffer, each buffer begins where the one before ends. */
  ghost predicate Tiles(ring: seq<Buf>, levels: nat) {
    && ring != [] && ring[0].offset == 0 && End(ring[|ring| - 1]) == Pow2(levels)
    && (forall i {:trigger BufOk(ring[i], levels)} | 0 <= i < |ring| :: BufOk(ring[i], levels))
    && (forall i: nat {:trigger Adjoins(ring, i)} | i + 1 < |ring| :: Adjoins(ring, i))
  }

  ghost predicate Adjoins(ring: seq<Buf>, i: nat)
    requires i + 1 < |ring|
  {
    ring[i + 1].offset == End(ring[i])
  }

  lemma {:induction false} OffsetsRise(ring: seq<Buf>, levels: nat, i: nat, j: nat)
    requires Tiles(ring, levels) && i < j < |ring|
    ensures End(ring[i]) <= ring[j].offset
    decreases j
  {
    assert Adjoins(ring, j - 1);
    if i < j - 1 {
      OffsetsRise(ring, levels, i, j - 1);
    }
  }

  lemma {:induction false} InsideTop(ring: seq<Buf>, levels: nat, i: nat)
    requires Tiles(ring, levels) && i < |ring|
    ensures End(ring[i]) <= Pow2(levels) && ring[i].offset < Pow2(levels)
  {
    PowerIsPositive(ring[i].level);
    if i < |ring| - 1 {
      OffsetsRise(ring, levels, i, |ring| - 1);
    }
  }

  /** Any two buffers of the ring are disjoint. */
  lemma {:induction false} BuffersAreDisjoint(ring: seq<Buf>, levels: nat, i: nat, j: nat)
    requires Tiles(ring, levels) && i < |ring| && j < |ring| && i != j
    ensures End(ring[i]) <= ring[j].offset || End(ring[j]) <= ring[i].offset
  {
    if i < j {
      OffsetsRise(ring, levels, i, j);
    } else {
      OffsetsRise(ring, levels, j, i);
    }
  }

  // ---------------------------------------------------------------- buddies

  /** The test of merge: mask & (1 << level). */
  predicate IsRight(b: Buf) { Bit(b.mask, b.level) }

  lemma {:induction false} MaskBit(b: Buf, levels: nat)
    requires BufOk(b, levels) && b.level < levels && b.offset < Pow2(levels)
    ensures IsRight(b) <==> Bit(b.offset, b.level)
    ensures IsRight(b) <==> !Multiple(b.offset, b.level + 1)
  {
    BitBelow(b.offset, b.level, levels);
    NextMultiple(b.offset, b.level);
  }

  /**
    The test tells right halves from left ones exactly below the top level: a whole top block passes for a
    right half, and in its ring of one the buffer before it is itself.
   */
  lemma {:induction false} MaskTestIsRight(ring: seq<Buf>, levels: nat, k: nat)
    requires Tiles(ring, levels) && k < |ring|
    ensures (IsRight(ring[k]) <==> !Multiple(ring[k].offset, ring[k].level + 1)) <==> ring[k].level < levels
    ensures ring[k].level == levels ==> IsRight(ring[k]) && |ring| == 1
  {
    InsideTop(ring, levels, k);
    assert BufOk(ring[k], levels);
    if ring[k].level < levels {
      MaskBit(ring[k], levels);
    } else {
      ZeroIsMultiple(levels + 1);
      BitOfPower(levels);
      if |ring| > 1 {
        var j := if k == 0 then 1 else 0;
        BuffersAreDisjoint(ring, levels, j, k);
        InsideTop(ring, levels, j);
        PowerIsPositive(ring[j].level);
      }
    }
  }

  /** A right half has a neighbour before it, which is at most as large. */
  lemma {:induction false} LeftNeighbour(ring: seq<Buf>, levels: nat, k: nat)
    requires Tiles(ring, levels) && k < |ring| && ring[k].level < levels && IsRight(ring[k])
    ensures k > 0 && ring[k - 1].level <= ring[k].level
    ensures ring[k - 1].level == ring[k].level ==>
              !IsRight(ring[k - 1]) && ring[k - 1].offset + Pow2(ring[k].level) == ring[k].offset
  {
    var b := ring[k];
    InsideTop(ring, levels, k);
    assert BufOk(ring[k], levels);
    MaskBit(b, levels);
    NextMultiple(b.offset, b.level);
    PowerIsPositive(b.level);
    var a := ring[k - 1];
    assert Adjoins(ring, k - 1);
    assert BufOk(ring[k - 1], levels);
    InsideTop(ring, levels, k - 1);
    if a.level > b.level {
      PowerIsMultiple(b.level + 1, a.level);
      CoarserMultiple(a.offset, b.level + 1, a.level);
      SumOfMultiples(a.offset, Pow2(a.level), b.level + 1);
    } else if a.level == b.level {
      MaskBit(a, levels);
      assert b.offset - Pow2(b.level) == a.offset;
    }
  }

  /** A left half has a neighbour behind it, which is at most as large. */
  lemma {:induction false} RightNeighbour(ring: seq<Buf>, levels: nat, k: nat)
    requires Tiles(ring, levels) && k < |ring| && ring[k].level < levels && !IsRight(ring[k])
    ensures k + 1 < |ring| && ring[k + 1].level <= ring[k].level
    ensures ring[k + 1].level == ring[k].level ==> IsRight(ring[k + 1])
  {
    var b := ring[k];
    InsideTop(ring, levels, k);
    assert BufOk(ring[k], levels);
    MaskBit(b, levels);
    HalfIsNoMultiple(b.offset, b.level);
    if k + 1 == |ring| {
      PowerIsMultiple(b.level + 1, levels);
      assert false;
    }
    var c := ring[k + 1];
    assert Adjoins(ring, k);
    assert BufOk(ring[k + 1], levels);
    InsideTop(ring, levels, k + 1);
    if c.level > b.level {
      CoarserMultiple(c.offset, b.level + 1, c.level);
      assert false;
    } else if c.level == b.level {
      MaskBit(c, levels);
    }
  }

  /** Half a block behind a multiple of the block is no multiple of the block. */
  lemma {:induction false} HalfIsNoMultiple(x: nat, k: nat)
    requires Multiple(x, k + 1)
    ensures !Multiple(x + Pow2(k), k + 1)
  {
    SumOfMultiples(x, Pow2(k), k + 1);
    PowerIsNoMultiple(k);
  }

  lemma {:induction false} PowerIsNoMultiple(k: nat)
    ensures !Multiple(Pow2(k), k + 1)
  {
    if k > 0 {
      PowerIsNoMultiple(k - 1);
      Halved(Pow2(k - 1));
    }
  }

  // ---------------------------------------------------------------- splitting

  /** split, lines 161-192: the buffer keeps the left half, a new free buffer gets the right one. */
  function Halves(b: Buf): (Buf, Buf)
    requires b.level > 0
  {
    var l := b.level - 1;
    (b.(level := l), Buf(b.offset + Pow2(l), l, WithBit(b.mask, l), true))
  }

  function SplitAt(ring: seq<Buf>, k: nat): seq<Buf>
    requires k < |ring| && ring[k].level > 0
  {
    ring[..k] + [Halves(ring[k]).0, Halves(ring[k]).1] + ring[k + 1..]
  }

  lemma {:induction false} HalvesOk(b: Buf, levels: nat)
    requires BufOk(b, levels) && b.level > 0 && b.offset < Pow2(levels)
    ensures var (left, right) := Halves(b);
            && BufOk(left, levels) && BufOk(right, levels)
            && right.offset == End(left) && End(right) == End(b) && left.offset == b.offset
  {
    var l := b.level - 1;
    CoarserMultiple(b.offset, l, l + 1);
    NextMultiple(b.offset, l);
    BitBelow(b.offset, l, levels);
    WithBitAdds(b.mask, l);
    PowerIsMultiple(l, l);
    SumOfMultiples(b.offset, Pow2(l), l);
  }

  lemma {:induction false} SplitTiles(ring: seq<Buf>, levels: nat, k: nat)
    requires Tiles(ring, levels) && k < |ring| && ring[k].level > 0
    ensures Tiles(SplitAt(ring, k), levels)
  {
    var r := SplitAt(ring, k);
    assert BufOk(ring[k], levels);
    InsideTop(ring, levels, k);
    HalvesOk(ring[k], levels);
    forall i | 0 <= i < |r| ensures BufOk(r[i], levels) {
      if i < k {
        assert BufOk(ring[i], levels);
      } else if i > k + 1 {
        assert BufOk(ring[i - 1], levels);
      }
    }
    forall i: nat | i + 1 < |r| ensures Adjoins(r, i) {
      if i < k {
        assert Adjoins(ring, i);
      } else if i > k {
        assert Adjoins(ring, i - 1);
      }
    }
  }

  /** The blocks that are handed out. */
  ghost function Used(ring: seq<Buf>): set<(nat, nat)> {
    set b | b in ring && !b.free :: (b.offset, b.level)
  }

  lemma SplitKeepsUsed(ring: seq<Buf>, k: nat)
    requires k < |ring| && ring[k].level > 0 && ring[k].free
    ensures Used(SplitAt(ring, k)) == Used(ring)
  {
    var r := SplitAt(ring, k);
    forall b | b in r && !b.free ensures b in ring {
      var i :| 0 <= i < |r| && r[i] == b;
      assert i < k || i > k + 1;
      assert b == ring[if i < k then i else i - 1];
    }
    forall b | b in ring && !b.free ensures b in r {
      var i :| 0 <= i < |ring| && ring[i] == b;
      assert b == r[if i < k then i else i + 1];
    }
  }

  // ---------------------------------------------------------------- merging

  /** Lines 145-153: the right buffer leaves the ring and the left one grows. */
  function MergeAt(ring: seq<Buf>, k: nat): seq<Buf>
    requires k + 1 < |ring|
  {
    ring[..k] + [ring[k].(level := ring[k].level + 1)] + ring[k + 2..]
  }

  /** Two free halves of one block. */
  ghost predicate Pair(ring: seq<Buf>, levels: nat, k: nat) {
    && k + 1 < |ring| && ring[k].free && ring[k + 1].free
    && ring[k].level == ring[k + 1].level < levels && !IsRight(ring[k])
  }

  lemma {:induction false} MergeTiles(ring: seq<Buf>, levels: nat, k: nat)
    requires Tiles(ring, levels) && Pair(ring, levels, k)
    ensures Tiles(MergeAt(ring, k), levels)
  {
    var r := MergeAt(ring, k);
    InsideTop(ring, levels, k);
    assert BufOk(ring[k], levels) && Adjoins(ring, k);
    MaskBit(ring[k], levels);
    forall i | 0 <= i < |r| ensures BufOk(r[i], levels) {
      if i < k {
        assert BufOk(ring[i], levels);
      } else if i > k {
        assert BufOk(ring[i + 1], levels);
      }
    }
    forall i: nat | i + 1 < |r| ensures Adjoins(r, i) {
      if i < k {
        assert Adjoins(ring, i);
      } else {
        assert Adjoins(ring, i + 1);
      }
    }
  }

  lemma MergeKeepsUsed(ring: seq<Buf>, levels: nat, k: nat)
    requires Pair(ring, levels, k)
    ensures Used(MergeAt(ring, k)) == Used(ring)
  {
    var r := MergeAt(ring, k);
    forall b | b in r && !b.free ensures b in ring {
      var i :| 0 <= i < |r| && r[i] == b;
      assert i != k;
      assert b == ring[if i < k then i else i + 1];
    }
    forall b | b in ring && !b.free ensures b in r {
      var i :| 0 <= i < |ring| && ring[i] == b;
      assert i < k || i > k + 1;
      assert b == r[if i < k then i else i - 1];
    }
  }

  // ---------------------------------------------------------------- no two free halves

  /** The only two free halves of one block, if any, are those at `at`. */
  ghost predicate OnlyPairAt(ring: seq<Buf>, levels: nat, at: set<int>) {
    forall i: nat {:trigger Pair(ring, levels, i)} | Pair(ring, levels, i) :: i in at
  }

  ghost predicate Settled(ring: seq<Buf>, levels: nat) { OnlyPairAt(ring, levels, {}) }

  lemma PairWasThereBeforeMerge(ring: seq<Buf>, levels: nat, k: nat, i: nat)
    requires k + 1 < |ring| && Pair(MergeAt(ring, k), levels, i) && (i + 1 < k || i > k)
    ensures Pair(ring, levels, if i < k then i else i + 1)
  {
  }

  lemma PairWasThereBeforeSplit(ring: seq<Buf>, levels: nat, k: nat, i: nat)
    requires k < |ring| && ring[k].level > 0 && Pair(SplitAt(ring, k), levels, i) && (i + 1 < k || i > k + 1)
    ensures Pair(ring, levels, if i < k then i else i - 1)
  {
  }

  /** After a merge only the grown buffer can have a free other half. */
  lemma MergePairs(ring: seq<Buf>, levels: nat, k: nat, at: nat)
    requires Tiles(ring, levels) && Pair(ring, levels, k) && OnlyPairAt(ring, levels, {at as int - 1, at}) &&
               (k == at || k + 1 == at)
    ensures OnlyPairAt(MergeAt(ring, k), levels, {k as int - 1, k})
  {
    var r := MergeAt(ring, k);
    forall i: nat | Pair(r, levels, i) ensures i in {k as int - 1, k} {
      if i + 1 < k || i > k {
        PairWasThereBeforeMerge(ring, levels, k, i);
      }
    }
  }

  /** After a split the two halves are a pair, and the one the block was part of is gone. */
  lemma SplitPairs(ring: seq<Buf>, levels: nat, k: nat)
    requires Tiles(ring, levels) && k < |ring| && ring[k].level > 0 && OnlyPairAt(ring, levels, {k as int - 1})
    ensures OnlyPairAt(SplitAt(ring, k), levels, {k})
  {
    var r := SplitAt(ring, k);
    forall i: nat | Pair(r, levels, i) ensures i == k {
      if i + 1 < k || i > k + 1 {
        PairWasThereBeforeSplit(ring, levels, k, i);
      } else if i + 1 == k {
        SplitPairBefore(ring, levels, k);
      } else if i == k + 1 {
        SplitPairBehind(ring, levels, k);
      }
    }
  }

  /** A left half in front of a split block is not the other half of the block's left half. */
  lemma {:induction false} SplitPairBefore(ring: seq<Buf>, levels: nat, k: nat)
    requires Tiles(ring, levels) && 0 < k < |ring| && ring[k].level > 0
    ensures !Pair(SplitAt(ring, k), levels, k - 1)
  {
    var r := SplitAt(ring, k);
    SplitTiles(ring, levels, k);
    if Pair(r, levels, k - 1) {
      RightNeighbour(r, levels, k - 1);
      InsideTop(r, levels, k);
      assert BufOk(r[k], levels) && BufOk(ring[k], levels);
      MaskBit(r[k], levels);
    }
  }

  lemma {:induction false} SplitPairBehind(ring: seq<Buf>, levels: nat, k: nat)
    requires Tiles(ring, levels) && k < |ring| && ring[k].level > 0
    ensures !Pair(SplitAt(ring, k), levels, k + 1)
  {
    var r := SplitAt(ring, k);
    SplitTiles(ring, levels, k);
    assert BufOk(ring[k], levels) && BufOk(r[k + 1], levels) && BufOk(r[k], levels);
    InsideTop(r, levels, k + 1);
    InsideTop(ring, levels, k);
    HalvesOk(ring[k], levels);
    HalfIsNoMultiple(ring[k].offset, ring[k].level - 1);
    MaskBit(r[k + 1], levels);
  }

  /** A ring of free buffers without two free halves of one block is the whole top block. */
  lemma {:induction false} AllFreeIsWhole(ring: seq<Buf>, levels: nat)
    requires Tiles(ring, levels) && Settled(ring, levels) && forall i | 0 <= i < |ring| :: ring[i].free
    ensures |ring| == 1 && ring[0].level == levels
  {
    var k := Smallest(ring);
    assert BufOk(ring[k], levels);
    if ring[k].level < levels {
      var i := PairOfSmallest(ring, levels, k);
    } else if |ring| > 1 {
      assert BufOk(ring[0], levels) && BufOk(ring[1], levels) && Adjoins(ring, 0);
      InsideTop(ring, levels, 1);
    }
  }

  /** The other half of a smallest buffer is not split. */
  lemma {:induction false} PairOfSmallest(ring: seq<Buf>, levels: nat, k: nat) returns (i: nat)
    requires Tiles(ring, levels) && (forall j | 0 <= j < |ring| :: ring[j].free)
    requires k < |ring| && (forall j | 0 <= j < |ring| :: ring[k].level <= ring[j].level) && ring[k].level < levels
    ensures Pair(ring, levels, i)
  {
    if IsRight(ring[k]) {
      LeftNeighbour(ring, levels, k);
      i := k - 1;
    } else {
      RightNeighbour(ring, levels, k);
      i := k;
    }
  }

  lemma {:induction false} Smallest(ring: seq<Buf>) returns (k: nat)
    requires ring != []
    ensures k < |ring| && forall i | 0 <= i < |ring| :: ring[k].level <= ring[i].level
    decreases |ring|
  {
    if |ring| == 1 {
      k := 0;
    } else {
      k := Smallest(ring[..|ring| - 1]);
      if ring[|ring| - 1].level < ring[k].level {
        k := |ring| - 1;
      }
    }
  }

  // ---------------------------------------------------------------- handing out and taking back

  class Top {
    const levels: nat
    var ring: seq<Buf>

    ghost predicate Valid()
      reads this
    {
      Tiles(ring, levels) && Settled(ring, levels)
    }

    /** allocTopLevel, lines 193-219: one free buffer of the top level. */
    constructor (levels: nat)
      ensures Valid() && this.levels == levels && Used(ring) == {}
    {
      this.levels := levels;
      ring := [Buf(0, levels, Pow2(levels), true)];
      new;
      ZeroIsMultiple(levels);
    }

    /**
      allocLevel and the splits of allocNewLevel, lines 220-259. Which free buffer the level lists offer is
      the caller's choice, a whole top block that merge has listed included; every split goes on with the
      right half.
     */
    method Alloc(from: nat, level: nat) returns (k: nat)
      requires Valid() && from < |ring| && ring[from].free && level <= ring[from].level
      modifies this`ring
      ensures Valid() && k < |ring| && !ring[k].free && ring[k].level == level
      ensures Used(ring) == old(Used(ring)) + {(ring[k].offset, level)}
      ensures old(ring)[from].offset <= ring[k].offset && End(ring[k]) == old(End(ring[from]))
    {
      k := from;
      while ring[k].level > level
        invariant Tiles(ring, levels) && OnlyPairAt(ring, levels, {k as int - 1}) && Used(ring) == old(Used(ring))
        invariant k < |ring| && ring[k].free && level <= ring[k].level
        invariant old(ring)[from].offset <= ring[k].offset && End(ring[k]) == old(End(ring[from]))
        decreases ring[k].level
      {
        InsideTop(ring, levels, k);
        assert BufOk(ring[k], levels);
        HalvesOk(ring[k], levels);
        SplitTiles(ring, levels, k);
        SplitKeepsUsed(ring, k);
        SplitPairs(ring, levels, k);
        ring := SplitAt(ring, k);
        k := k + 1;
      }
      MarkTiles(ring, levels, k, false);
      MarkPairs(ring, levels, k, false);
      UsedWith(ring, k);
      ring := ring[k := ring[k].(free := false)];
    }

    /** free and merge, lines 122-160: as long as the other half is free, the two become one. */
    method Free(at: nat)
      requires Valid() && at < |ring| && !ring[at].free && ring[at].level < levels
      modifies this`ring
      ensures Valid()
      ensures Used(ring) == old(Used(ring)) - {(old(ring)[at].offset, old(ring)[at].level)}
    {
      UsedWithout(ring, levels, at);
      MarkTiles(ring, levels, at, true);
      MarkPairs(ring, levels, at, true);
      ring := ring[at := ring[at].(free := true)];
      var k: nat := at;
      while ring[k].level < levels
        invariant Tiles(ring, levels) && k < |ring| && ring[k].free && OnlyPairAt(ring, levels, {k as int - 1, k})
        invariant Used(ring) == old(Used(ring)) - {(old(ring)[at].offset, old(ring)[at].level)}
        decreases |ring|
      {
        var left: nat;
        if IsRight(ring[k]) {
          LeftNeighbour(ring, levels, k);
          if ring[k - 1].level != ring[k].level || !ring[k - 1].free {
            AloneIsSettled(ring, levels, k);
            return;
          }
          left := k - 1;
        } else {
          RightNeighbour(ring, levels, k);
          if ring[k + 1].level != ring[k].level || !ring[k + 1].free {
            AloneIsSettled(ring, levels, k);
            return;
          }
          left := k;
        }
        MergeTiles(ring, levels, left);
        MergeKeepsUsed(ring, levels, left);
        MergePairs(ring, levels, left, k);
        ring := MergeAt(ring, left);
        k := left;
      }
      TopHasNoPair(ring, levels, k);
    }
  }

  lemma {:induction false} ZeroIsMultiple(k: nat)
    ensures Multiple(0, k)
  {
    if k > 0 {
      ZeroIsMultiple(k - 1);
    }
  }

  /** A pair consists of a left and a right half. */
  lemma {:induction false} PairHasRight(ring: seq<Buf>, levels: nat, i: nat)
    requires Tiles(ring, levels) && Pair(ring, levels, i)
    ensures IsRight(ring[i + 1])
  {
    RightNeighbour(ring, levels, i);
  }

  /** When the other half is in use or split, the buffer is part of no pair. */
  lemma AloneIsSettled(ring: seq<Buf>, levels: nat, k: nat)
    requires Tiles(ring, levels) && k < |ring| && OnlyPairAt(ring, levels, {k as int - 1, k})
    requires IsRight(ring[k]) ==> k > 0 && (ring[k - 1].level != ring[k].level || !ring[k - 1].free)
    requires !IsRight(ring[k]) ==> k + 1 < |ring| && (ring[k + 1].level != ring[k].level || !ring[k + 1].free)
    ensures Settled(ring, levels)
  {
    forall i: nat | i in {k as int - 1, k} ensures !Pair(ring, levels, i) {
      if Pair(ring, levels, i) {
        PairHasRight(ring, levels, i);
      }
    }
  }

  lemma PairElsewhere(ring: seq<Buf>, levels: nat, k: nat, free: bool, i: nat)
    requires k < |ring| && i != k && i + 1 != k && Pair(ring[k := ring[k].(free := free)], levels, i)
    ensures Pair(ring, levels, i)
  {
  }

  lemma MarkTiles(ring: seq<Buf>, levels: nat, k: nat, free: bool)
    requires Tiles(ring, levels) && k < |ring|
    ensures Tiles(ring[k := ring[k].(free := free)], levels)
  {
    var r := ring[k := ring[k].(free := free)];
    forall i | 0 <= i < |r| ensures BufOk(r[i], levels) {
      assert BufOk(ring[i], levels);
    }
    forall i: nat | i + 1 < |r| ensures Adjoins(r, i) {
      assert Adjoins(ring, i);
    }
  }

  /** Handing out one half of the only pair leaves none; taking a buffer back makes at most one. */
  lemma MarkPairs(ring: seq<Buf>, levels: nat, k: nat, free: bool)
    requires k < |ring|
    ensures var r := ring[k := ring[k].(free := free)];
            && (!free && OnlyPairAt(ring, levels, {k as int - 1}) ==> Settled(r, levels))
            && (Settled(ring, levels) ==> OnlyPairAt(r, levels, {k as int - 1, k}))
  {
    var r := ring[k := ring[k].(free := free)];
    forall i: nat | Pair(r, levels, i) ensures i == k || i + 1 == k || Pair(ring, levels, i) {
      if i != k && i + 1 != k {
        PairElsewhere(ring, levels, k, free, i);
      }
    }
  }

  lemma UsedWith(ring: seq<Buf>, k: nat)
    requires k < |ring| && ring[k].free
    ensures Used(ring[k := ring[k].(free := false)]) == Used(ring) + {(ring[k].offset, ring[k].level)}
  {
    var r := ring[k := ring[k].(free := false)];
    forall b | b in ring && !b.free ensures b in r {
      var i :| 0 <= i < |ring| && ring[i] == b;
      assert r[i] == b;
    }
    assert r[k] in r;
  }

  /** No other buffer has the same place, so the freed one leaves the set of used blocks. */
  lemma UsedWithout(ring: seq<Buf>, levels: nat, k: nat)
    requires Tiles(ring, levels) && k < |ring| && !ring[k].free
    ensures Used(ring[k := ring[k].(free := true)]) == Used(ring) - {(ring[k].offset, ring[k].level)}
  {
    var r := ring[k := ring[k].(free := true)];
    forall b | b in r && !b.free ensures b in ring && b.offset != ring[k].offset {
      var i :| 0 <= i < |r| && r[i] == b;
      assert ring[i] == b;
      BuffersAreDisjoint(ring, levels, i, k);
      PowerIsPositive(b.level);
      PowerIsPositive(ring[k].level);
    }
    forall b | b in ring && !b.free ensures b in r || b == ring[k] {
      var i :| 0 <= i < |ring| && ring[i] == b;
      assert i != k ==> r[i] == b;
    }
  }

  lemma TopHasNoPair(ring: seq<Buf>, levels: nat, k: nat)
    requires Tiles(ring, levels) && k < |ring| && ring[k].level >= levels && OnlyPairAt(ring, levels, {k as int - 1, k})
    ensures Settled(ring, levels)
  {
    assert BufOk(ring[k], levels);
  }

  lemma UsedHas(ring: seq<Buf>, i: nat)
    requires i < |ring| && !ring[i].free
    ensures (ring[i].offset, ring[i].level) in Used(ring)
  {
    assert ring[i] in ring;
  }

  /** When everything has been taken back, the top block is whole again. */
  lemma NothingUsedIsWhole(ring: seq<Buf>, levels: nat)
    requires Tiles(ring, levels) && Settled(ring, levels) && Used(ring) == {}
    ensures |ring| == 1 && ring[0].level == levels
  {
    forall i: nat | i < |ring| ensures ring[i].free {
      if !ring[i].free {
        UsedHas(ring, i);
      }
    }
    AllFreeIsWhole(ring, levels);
  }

  // ---------------------------------------------------------------- the level lists

  /** The free buffers of each level, by name, the last one first to be handed out. */
  type Lists = seq<seq<nat>>

  /** getBuddyFromHead, lines 63-69, on a list that is not empty. */
  method TakeLast(lists: Lists, level: nat) returns (lists': Lists, b: nat)
    requires level < |lists| && lists[level] != []
    ensures lists' == lists[level := lists[level][..|lists[level]| - 1]] && b == lists[level][|lists[level]| - 1]
  {
    b := lists[level][|lists[level]| - 1];
    lists' := lists[level := lists[level][..|lists[level]| - 1]];
  }

  /** The list part of split: both halves go to a level whose list is empty. */
  method ListHalves(lists: Lists, level: nat, left: nat, right: nat) returns (lists': Lists)
    requires level < |lists| && lists[level] == []
    ensures lists' == lists[level := [left, right]]
  {
    lists' := lists[level := [left, right]];
  }

  /** The buffer that getBuddyFromHead takes from level `from`: the last one, or the new top block. */
  function Taken(lists: Lists, from: nat, top: nat): nat
    requires from < |lists| && (from < |lists| - 1 ==> lists[from] != [])
  {
    if from == |lists| - 1 then top else lists[from][|lists[from]| - 1]
  }

  /** The buffer that is split to reach level l: the taken one first, further down the right half made last. */
  function SplitInto(from: nat, taken: nat, names: seq<nat>, l: nat): nat
    requires l < from <= |names|
  {
    if l == from - 1 then taken else names[l + 1]
  }

  /** What allocNewLevel does to the lists. */
  ghost predicate NewLevel(lists: Lists, lists': Lists, level: nat, from: nat, top: nat, names: seq<nat>) {
    && level < from < |lists| == |lists'| && |names| >= |lists| && lists[level] == []
    && (from < |lists| - 1 ==> lists[from] != [])
    && (forall l | 0 <= l < level || from < l < |lists| :: lists'[l] == lists[l])
    && (forall l | level < l < from ::
          lists[l] == [] && lists'[l] == [SplitInto(from, Taken(lists, from, top), names, l)])
    && lists'[level] == [SplitInto(from, Taken(lists, from, top), names, level), names[level]]
    && lists'[from] == if from == |lists| - 1 then lists[from] else lists[from][..|lists[from]| - 1]
  }

  /**
    allocNewLevel, lines 220-239, called when the list of `level` is empty. `top` is the new top block if one
    can be made; `names` are the buffers that the splits create. Each split finds the list below empty and
    leaves the split buffer there as the left half; the right half it lists last is the one taken next.
   */
  method AllocNewLevel(lists: Lists, level: nat, top: nat, canMakeTop: bool, names: seq<nat>)
    returns (lists': Lists, ok: bool, from: nat)
    requires level + 1 < |lists| && lists[level] == [] && |names| >= |lists|
    ensures !ok ==> !canMakeTop && lists' == lists && forall l | level < l < |lists| - 1 :: lists[l] == []
    ensures ok ==> NewLevel(lists, lists', level, from, top, names)
  {
    var cl := level + 1;
    while cl < |lists| - 1 && lists[cl] == []
      invariant level < cl <= |lists| - 1 && forall l | level < l < cl :: lists[l] == []
    {
      cl := cl + 1;
    }
    lists', ok, from := lists, true, cl;
    if cl == |lists| - 1 {
      if !canMakeTop {
        return lists, false, 0;
      }
      lists' := lists[cl := lists[cl] + [top]];
    }
    ghost var start, taken := lists', Taken(lists, from, top);
    assert start[from] == start[from][..|start[from]| - 1] + [taken];
    while true
      invariant level < cl <= from && |lists'| == |lists|
      invariant forall l | 0 <= l < cl :: lists'[l] == lists[l]
      invariant forall l | cl < l < from :: lists'[l] == [SplitInto(from, taken, names, l)]
      invariant cl < from ==> lists'[cl] == [SplitInto(from, taken, names, cl), names[cl]]
      invariant cl < from ==> lists'[from] == start[from][..|start[from]| - 1]
      invariant cl == from ==> lists' == start
      invariant lists'[from + 1..] == lists[from + 1..]
      decreases cl
    {
      var b;
      lists', b := TakeLast(lists', cl);
      lists' := ListHalves(lists', cl - 1, b, names[cl - 1]);
      cl := cl - 1;
      if cl <= level {
        break;
      }
    }
    forall l | from < l < |lists| ensures lists'[l] == lists[l] {
      assert lists'[from + 1..][l - from - 1] == lists[from + 1..][l - from - 1];
    }
  }

  /** No buffer is listed twice. */
  ghost predicate ListedOnce(lists: Lists) {
    forall k, i, l, j | 0 <= k < |lists| && 0 <= i < |lists[k]| && 0 <= l < |lists| && 0 <= j < |lists[l]| ::
      lists[k][i] == lists[l][j] ==> k == l && i == j
  }

  ghost predicate Listed(lists: Lists, b: nat) {
    exists l :: 0 <= l < |lists| && b in lists[l]
  }

  /** The buffers that the splits create are new and different. */
  ghost predicate NewNames(lists: Lists, top: nat, names: seq<nat>) {
    && (forall i | 0 <= i < |names| :: !Listed(lists, names[i]) && names[i] != top)
    && (forall i, j | 0 <= i < j < |names| :: names[i] != names[j])
    && !Listed(lists, top)
  }

  /** Where a buffer of the new lists comes from: it was there before, or is the taken one, or is new. */
  lemma ComesFrom(lists: Lists, lists': Lists, level: nat, from: nat, top: nat, names: seq<nat>, l: nat, j: nat)
    requires NewLevel(lists, lists', level, from, top, names) && NewNames(lists, top, names) && ListedOnce(lists)
    requires l < |lists'| && j < |lists'[l]|
    ensures var b := lists'[l][j];
            || (j < |lists[l]| && b == lists[l][j] && b != Taken(lists, from, top))
            || (l == from - 1 && j == 0 && b == Taken(lists, from, top))
            || (level <= l < from - 1 && j == 0 && b == names[l + 1])
            || (l == level && j == 1 && b == names[level])
  {
    if l < level || from <= l {
      if from < |lists| - 1 {
        assert lists[from][|lists[from]| - 1] == Taken(lists, from, top);
      } else if j < |lists[l]| {
        assert lists[l][j] in lists[l];
      }
    }
  }

  /** When no buffer was listed twice, none is afterwards, and only the taken buffer has changed its level. */
  lemma NewLevelListsOnce(lists: Lists, lists': Lists, level: nat, from: nat, top: nat, names: seq<nat>)
    requires NewLevel(lists, lists', level, from, top, names) && NewNames(lists, top, names) && ListedOnce(lists)
    ensures ListedOnce(lists')
    ensures forall l, b | 0 <= l < |lists| && b in lists[l] && b != Taken(lists, from, top) :: b in lists'[l]
    ensures Taken(lists, from, top) in lists'[from - 1]
  {
    forall k: nat, i: nat, l: nat, j: nat |
      k < |lists'| && i < |lists'[k]| && l < |lists'| && j < |lists'[l]| && lists'[k][i] == lists'[l][j]
      ensures k == l && i == j
    {
      ComesFrom(lists, lists', level, from, top, names, k, i);
      ComesFrom(lists, lists', level, from, top, names, l, j);
      if i < |lists[k]| && lists'[k][i] == lists[k][i] {
        assert Listed(lists, lists[k][i]);
      }
      if j < |lists[l]| && lists'[l][j] == lists[l][j] {
        assert Listed(lists, lists[l][j]);
      }
      if from < |lists| - 1 {
        assert Listed(lists, Taken(lists, from, top));
      }
    }
    forall l: nat, b | l < |lists| && b in lists[l] && b != Taken(lists, from, top) ensures b in lists'[l] {
      var i :| 0 <= i < |lists[l]| && lists[l][i] == b;
      if l == from && from < |lists| - 1 {
        assert lists'[l][i] == b;
      }
    }
  }
}
