/**
  The frozen index: the writers of database/appendingIndex.h and .cpp that lay an index out in one flat
  byte image, with fixed slots or with keys of variable length.
 */
module SolidIndex {
  import opened Bytes
  import opened Bits
  import opened KeyOrder
  import opened AppendingIndex

  const HEAD_SIZE: nat := 12
  const FLAG_FIXED: byte := 1
  const INLINE_LIMIT: nat := 0x7f
  const LONG_MARK: nat := 0x80
  const OFFSET_LIMIT: nat := 0x100_0000

  // ---------------------------------------------------------------- the packed word

  lemma Pow2of24()
    ensures Pow2(24) == OFFSET_LIMIT
  {
    assert Pow2(6) == 64;
    assert Pow2(12) == 4096;
    assert Pow2(18) == 262144;
  }

  /** The word stored beside a key (lines 321-333): the only id, or the count (0x80 when it is long) over the offset. */
  function PackedWord(ids: seq<nat>, at: nat): nat {
    if |ids| == 1 then ids[0]
    else Or(Mark(|ids|) * OFFSET_LIMIT, at)
  }

  /** What stands in the upper byte of a packed word. */
  function Mark(count: nat): nat { if count < INLINE_LIMIT then count else LONG_MARK }

  /** An offset below 2^24 and the mark over it can be told apart again. */
  lemma PackedWordParts(ids: seq<nat>, at: nat)
    requires at < OFFSET_LIMIT && |ids| != 1
    ensures var word := PackedWord(ids, at);
            word / OFFSET_LIMIT == Mark(|ids|) && word % OFFSET_LIMIT == at && word < WORD32
    ensures PackedWord(ids, at) == (if |ids| < 0x7f then |ids| * 0x100_0000 else 0x8000_0000) + at
  {
    Pow2of24();
    OrWithoutOverlap(Mark(|ids|), at, 24);
  }

  // ---------------------------------------------------------------- the layout of a fixed image

  function ExternSize(count: nat): nat {
    if count == 1 then 0 else if count < INLINE_LIMIT then 4 * count else 4 + 4 * count
  }

  /** What a key adds to the area behind the slots. */
  function Extern(ids: seq<nat>): (b: seq<byte>)
    ensures |b| == ExternSize(|ids|)
  {
    if |ids| == 1 then [] else if |ids| < INLINE_LIMIT then Words(ids) else U32(|ids|) + Words(ids)
  }

  /** Where slot i lies. */
  function SlotAt(width: nat, i: nat): nat {
    if i == 0 then HEAD_SIZE else SlotAt(width, i - 1) + (width + 4)
  }

  lemma {:induction false} SlotAddress(width: nat, i: nat)
    ensures SlotAt(width, i) == HEAD_SIZE + (width + 4) * i
  {
    if i > 0 {
      SlotAddress(width, i - 1);
      assert (width + 4) * i == (width + 4) * (i - 1) + (width + 4);
    }
  }

  lemma {:induction false} SlotsRise(width: nat, i: nat, j: nat)
    requires i < j
    ensures SlotAt(width, i) + (width + 4) <= SlotAt(width, j)
  {
    if i < j - 1 {
      SlotsRise(width, i, j - 1);
    }
  }

  /** Where the externs of posting i lie when the area begins at `start`. */
  function ExternAt(start: nat, ps: seq<Posting>, i: nat): nat
    requires i <= |ps|
  {
    if i == 0 then start else ExternAt(start, ps, i - 1) + ExternSize(|ps[i - 1].ids|)
  }

  lemma {:induction false} ExternsRise(start: nat, ps: seq<Posting>, i: nat, j: nat)
    requires i <= j <= |ps|
    ensures ExternAt(start, ps, i) <= ExternAt(start, ps, j)
    ensures i < j ==> ExternAt(start, ps, i) + ExternSize(|ps[i].ids|) <= ExternAt(start, ps, j)
    decreases j
  {
    if i < j {
      ExternsRise(start, ps, i, j - 1);
    }
  }

  /** The externs begin behind one slot more than there are keys. */
  function ExternStart(width: nat, ps: seq<Posting>): nat { SlotAt(width, |ps| + 1) }

  function Slot(width: nat, ps: seq<Posting>, i: nat): seq<byte>
    requires i < |ps|
  {
    ps[i].key + U32(PackedWord(ps[i].ids, ExternAt(ExternStart(width, ps), ps, i)))
  }

  function Head(size: nat, count: nat, kind: byte, flag: byte, length: nat): (b: seq<byte>)
    ensures |b| == HEAD_SIZE
  {
    U32(size) + HeadTail(count, kind, flag, length)
  }

  function FixedSize(width: nat, ps: seq<Posting>): nat { ExternAt(ExternStart(width, ps), ps, |ps|) }

  ghost predicate PostingHeld(s: seq<byte>, width: nat, ps: seq<Posting>, i: nat)
    requires i < |ps|
  {
    && Holds(s, SlotAt(width, i), Slot(width, ps, i))
    && Holds(s, ExternAt(ExternStart(width, ps), ps, i), Extern(ps[i].ids))
  }

  /** The first n slots and externs lie in s. */
  ghost predicate FixedPart(s: seq<byte>, width: nat, ps: seq<Posting>, n: nat) {
    && n <= |ps|
    && (forall i: nat {:trigger PostingHeld(s, width, ps, i)} | i < n :: PostingHeld(s, width, ps, i))
  }

  /** Every posting has ids; keys are as wide as the slots; ids are 32-bit numbers. */
  ghost predicate PostingsOk(width: nat, ps: seq<Posting>) {
    forall i | 0 <= i < |ps| :: |ps[i].key| == width && IdsOk(ps[i].ids)
  }

  ghost predicate IdsOk(ids: seq<nat>) {
    0 < |ids| < WORD32 && forall i | 0 <= i < |ids| :: ids[i] < WORD32
  }

  // ---------------------------------------------------------------- writing a fixed image

  /** A place that none of the first n postings uses. */
  ghost predicate Unused(width: nat, ps: seq<Posting>, n: nat, at: nat, size: nat)
    requires n <= |ps|
  {
    || at + size <= HEAD_SIZE
    || (SlotAt(width, n) <= at && at + size <= ExternStart(width, ps))
    || ExternAt(ExternStart(width, ps), ps, n) <= at
  }

  lemma {:induction false} UnusedIsDisjoint(width: nat, ps: seq<Posting>, n: nat, at: nat, size: nat, i: nat)
    requires i < n <= |ps| && Unused(width, ps, n, at, size)
    ensures at + size <= SlotAt(width, i) || SlotAt(width, i) + (width + 4) <= at
    ensures var p := ExternAt(ExternStart(width, ps), ps, i); at + size <= p || p + ExternSize(|ps[i].ids|) <= at
  {
    var start := ExternStart(width, ps);
    SlotsRise(width, i, n);
    SlotsRise(width, n, |ps| + 1);
    ExternsRise(start, ps, 0, i);
    ExternsRise(start, ps, 0, n);
    ExternsRise(start, ps, i, n);
    FirstSlot(width, i);
  }

  lemma {:induction false} FirstSlot(width: nat, i: nat)
    ensures HEAD_SIZE <= SlotAt(width, i)
  {
    if i > 0 {
      SlotsRise(width, 0, i);
    }
  }

  lemma {:induction false} PostingSpliced(s: seq<byte>, width: nat, ps: seq<Posting>, n: nat, at: nat, b: seq<byte>,
                                          i: nat)
    requires i < n <= |ps| && PostingHeld(s, width, ps, i) && |ps[i].key| == width && at + |b| <= |s|
    requires Unused(width, ps, n, at, |b|)
    ensures PostingHeld(Spliced(s, at, b), width, ps, i)
  {
    UnusedIsDisjoint(width, ps, n, at, |b|, i);
    HoldsSpliced(s, at, b, SlotAt(width, i), Slot(width, ps, i));
    HoldsSpliced(s, at, b, ExternAt(ExternStart(width, ps), ps, i), Extern(ps[i].ids));
  }

  /** Storing where none of the first n postings lies leaves them alone. */
  lemma {:induction false} FixedPartSpliced(s: seq<byte>, width: nat, ps: seq<Posting>, n: nat, at: nat, b: seq<byte>)
    requires FixedPart(s, width, ps, n) && PostingsOk(width, ps) && at + |b| <= |s| && Unused(width, ps, n, at, |b|)
    ensures FixedPart(Spliced(s, at, b), width, ps, n)
  {
    var t := Spliced(s, at, b);
    forall i: nat | i < n ensures PostingHeld(t, width, ps, i) {
      assert PostingHeld(s, width, ps, i);
      PostingSpliced(s, width, ps, n, at, b, i);
    }
  }

  lemma {:induction false} SlotEnds(width: nat, ps: seq<Posting>, i: nat)
    requires i < |ps|
    ensures HEAD_SIZE <= SlotAt(width, i) && SlotAt(width, i) + (width + 4) <= ExternStart(width, ps)
    ensures ExternStart(width, ps) <= ExternAt(ExternStart(width, ps), ps, i)
    ensures ExternAt(ExternStart(width, ps), ps, i) + ExternSize(|ps[i].ids|) <= FixedSize(width, ps)
  {
    FirstSlot(width, i);
    SlotsRise(width, i, |ps| + 1);
    ExternsRise(ExternStart(width, ps), ps, 0, i);
    ExternsRise(ExternStart(width, ps), ps, i, |ps|);
  }

  /** What one turn of the loop stores. */
  function WithPosting(s: seq<byte>, width: nat, ps: seq<Posting>, i: nat): (t: seq<byte>)
    requires i < |ps| && |ps[i].key| == width && FixedSize(width, ps) <= |s|
    ensures |t| == |s|
  {
    SlotEnds(width, ps, i);
    Spliced(Spliced(s, SlotAt(width, i), Slot(width, ps, i)), ExternAt(ExternStart(width, ps), ps, i),
        Extern(ps[i].ids))
  }

  lemma {:induction false} FixedPartGrows(s: seq<byte>, width: nat, ps: seq<Posting>, n: nat, head: seq<byte>)
    requires n < |ps| && PostingsOk(width, ps) && FixedSize(width, ps) <= |s|
    requires FixedPart(s, width, ps, n) && 4 + |head| <= HEAD_SIZE && Holds(s, 4, head)
    ensures FixedPart(WithPosting(s, width, ps, n), width, ps, n + 1) && Holds(WithPosting(s, width, ps, n), 4, head)
  {
    var p, q := SlotAt(width, n), ExternAt(ExternStart(width, ps), ps, n);
    var slot, ext := Slot(width, ps, n), Extern(ps[n].ids);
    SlotEnds(width, ps, n);
    var t := Spliced(s, p, slot);
    FixedPartSpliced(s, width, ps, n, p, slot);
    HoldsSpliced(s, p, slot, 4, head);
    FixedPartSpliced(t, width, ps, n, q, ext);
    HoldsSpliced(t, q, ext, 4, head);
    HoldsSpliced(t, q, ext, p, slot);
    var u := Spliced(t, q, ext);
    forall i: nat | i < n + 1 ensures PostingHeld(u, width, ps, i) {
      if i < n {
        assert PostingHeld(u, width, ps, i);
      }
    }
  }

  method WriteSlot(data: array<byte>, at: nat, key: Key, word: seq<byte>)
    requires at + |key| + |word| <= data.Length
    modifies data
    ensures data[..] == Spliced(old(data[..]), at, key + word)
  {
    SplicedTwice(data[..], at, key, word);
    Put(data, at, key);
    Put(data, at + |key|, word);
  }

  /** Lines 334-338: the count of a long list, then the ids. */
  method WriteExtern(data: array<byte>, at: nat, ids: seq<nat>) returns (next: nat)
    requires at + ExternSize(|ids|) <= data.Length
    modifies data
    ensures data[..] == Spliced(old(data[..]), at, Extern(ids)) && next == at + ExternSize(|ids|)
  {
    next := at;
    if |ids| == 1 {
      assert Spliced(data[..], at, []) == data[..];
      return;
    }
    if |ids| >= INLINE_LIMIT {
      SplicedTwice(data[..], at, U32(|ids|), Words(ids));
      Put(data, next, U32(|ids|));
      next := next + 4;
    }
    Put(data, next, Words(ids));
    next := next + 4 * |ids|;
  }

  ghost predicate IsFixedImage(s: seq<byte>, width: nat, ps: seq<Posting>, kind: byte) {
    && Holds(s, 0, Head(FixedSize(width, ps), |ps|, kind, FLAG_FIXED, width))
    && FixedPart(s, width, ps, |ps|)
  }

  /** The image takes no more bytes than its head states. */
  lemma {:induction false} FixedCut(s: seq<byte>, width: nat, ps: seq<Posting>, kind: byte)
    requires IsFixedImage(s, width, ps, kind) && PostingsOk(width, ps) && ps != [] && FixedSize(width, ps) <= |s|
    ensures IsFixedImage(s[..FixedSize(width, ps)], width, ps, kind)
  {
    var n := FixedSize(width, ps);
    SlotEnds(width, ps, 0);
    HoldsCut(s, n, 0, Head(n, |ps|, kind, FLAG_FIXED, width));
    forall i: nat | i < |ps| ensures PostingHeld(s[..n], width, ps, i) {
      assert PostingHeld(s, width, ps, i);
      SlotEnds(width, ps, i);
      HoldsCut(s, n, SlotAt(width, i), Slot(width, ps, i));
      HoldsCut(s, n, ExternAt(ExternStart(width, ps), ps, i), Extern(ps[i].ids));
    }
  }

  method ExternArea(width: nat, n: nat) returns (at: nat)
    ensures at == SlotAt(width, n + 1)
  {
    SlotAddress(width, n + 1);
    at := HEAD_SIZE + (width + 4) * (n + 1);
  }

  function HeadTail(count: nat, kind: byte, flag: byte, length: nat): (b: seq<byte>)
    ensures |b| == 8
  {
    U32(count) + [kind] + [flag] + U16(length)
  }

  /** The last store of the writer: the size, in front of the rest of the head. */
  method FinishFixed(data: array<byte>, ghost ps: seq<Posting>, ghost width: nat, ghost kind: byte, size: nat)
    requires PostingsOk(width, ps) && FixedPart(data[..], width, ps, |ps|) && size == FixedSize(width, ps)
    requires Holds(data[..], 4, HeadTail(|ps|, kind, FLAG_FIXED, width))
    modifies data
    ensures IsFixedImage(data[..], width, ps, kind)
  {
    ghost var s, tail := data[..], HeadTail(|ps|, kind, FLAG_FIXED, width);
    FixedPartSpliced(s, width, ps, |ps|, 0, U32(size));
    HoldsSpliced(s, 0, U32(size), 4, tail);
    Put(data, 0, U32(size));
    HoldsJoin(data[..], 0, U32(size), tail);
  }

  /** createFixedSolidIndex, lines 309-343 and appendingIndex.cpp lines 205-239. */
  method CreateFixed(data: array<byte>, ps: seq<Posting>, width: nat, kind: byte)
    requires ps != [] && PostingsOk(width, ps) && FixedSize(width, ps) <= data.Length
    modifies data
    ensures IsFixedImage(data[..], width, ps, kind)
  {
    SlotEnds(width, ps, 0);
    var slotPos := HEAD_SIZE;
    var externPos := ExternArea(width, |ps|);
    var tail := HeadTail(|ps|, kind, FLAG_FIXED, width);
    HoldsSpliced(data[..], 4, tail, 4, tail);
    Put(data, 4, tail);
    for i := 0 to |ps|
      invariant slotPos == SlotAt(width, i) && externPos == ExternAt(ExternStart(width, ps), ps, i)
      invariant FixedPart(data[..], width, ps, i) && Holds(data[..], 4, tail)
    {
      FixedPartGrows(data[..], width, ps, i, tail);
      SlotEnds(width, ps, i);
      WriteSlot(data, slotPos, ps[i].key, U32(PackedWord(ps[i].ids, externPos)));
      externPos := WriteExtern(data, externPos, ps[i].ids);
      slotPos := slotPos + width + 4;
    }
    FinishFixed(data, ps, width, kind, externPos);
  }

  // ---------------------------------------------------------------- images with keys of variable length

  function VarEntrySize(p: Posting): nat { 2 + |p.key| + 4 + 4 * |p.ids| }

  /** A key with its length, its count and its ids. */
  function VarEntry(p: Posting): (b: seq<byte>)
    ensures |b| == VarEntrySize(p)
  {
    U16(|p.key|) + p.key + (U32(|p.ids|) + Words(p.ids))
  }

  /** Where entry i lies: behind the table of offsets and the entries before it. */
  function VarAt(ps: seq<Posting>, i: nat): nat
    requires i <= |ps|
  {
    if i == 0 then HEAD_SIZE + 4 * (|ps| + 1) else VarAt(ps, i - 1) + VarEntrySize(ps[i - 1])
  }

  function VarSize(ps: seq<Posting>): nat { VarAt(ps, |ps|) }

  ghost predicate VarHeld(s: seq<byte>, ps: seq<Posting>, i: nat)
    requires i < |ps|
  {
    && Holds(s, HEAD_SIZE + 4 * i, U32(VarAt(ps, i)))
    && Holds(s, VarAt(ps, i), VarEntry(ps[i]))
  }

  ghost predicate VarEntries(s: seq<byte>, ps: seq<Posting>, n: nat) {
    && n <= |ps|
    && (forall i: nat {:trigger VarHeld(s, ps, i)} | i < n :: VarHeld(s, ps, i))
  }

  lemma {:induction false} VarRise(ps: seq<Posting>, i: nat, j: nat)
    requires i <= j <= |ps|
    ensures HEAD_SIZE + 4 * (|ps| + 1) <= VarAt(ps, i) <= VarAt(ps, j)
    ensures i < j ==> VarAt(ps, i) + VarEntrySize(ps[i]) <= VarAt(ps, j)
    decreases j
  {
    if i < j {
      VarRise(ps, i, j - 1);
    } else if i > 0 {
      VarRise(ps, i - 1, i - 1);
    }
  }

  /** Storing where none of the first n entries lies leaves them alone. */
  lemma {:induction false} VarEntriesSpliced(s: seq<byte>, ps: seq<Posting>, n: nat, at: nat, b: seq<byte>)
    requires VarEntries(s, ps, n) && at + |b| <= |s|
    requires at + |b| <= HEAD_SIZE || (HEAD_SIZE + 4 * n <= at && at + |b| <= HEAD_SIZE + 4 * (|ps| + 1)) ||
               VarAt(ps, n) <= at
    ensures VarEntries(Spliced(s, at, b), ps, n)
  {
    var t := Spliced(s, at, b);
    forall i: nat | i < n ensures VarHeld(t, ps, i) {
      assert VarHeld(s, ps, i);
      VarRise(ps, i, n);
      HoldsSpliced(s, at, b, HEAD_SIZE + 4 * i, U32(VarAt(ps, i)));
      HoldsSpliced(s, at, b, VarAt(ps, i), VarEntry(ps[i]));
    }
  }

  function WithVarEntry(s: seq<byte>, ps: seq<Posting>, i: nat): (t: seq<byte>)
    requires i < |ps| && VarSize(ps) <= |s|
    ensures |t| == |s|
  {
    VarRise(ps, i, |ps|);
    Spliced(Spliced(s, HEAD_SIZE + 4 * i, U32(VarAt(ps, i))), VarAt(ps, i), VarEntry(ps[i]))
  }

  lemma {:induction false} VarOffsetStored(s: seq<byte>, ps: seq<Posting>, n: nat, head: seq<byte>)
    requires n < |ps| && VarSize(ps) <= |s| && VarEntries(s, ps, n) && 4 + |head| <= HEAD_SIZE && Holds(s, 4, head)
    ensures HEAD_SIZE + 4 * n + 4 <= VarAt(ps, n) && VarAt(ps, n) + VarEntrySize(ps[n]) <= |s|
    ensures var t := Spliced(s, HEAD_SIZE + 4 * n, U32(VarAt(ps, n)));
            VarEntries(t, ps, n) && Holds(t, 4, head) && Holds(t, HEAD_SIZE + 4 * n, U32(VarAt(ps, n)))
  {
    VarRise(ps, n, |ps|);
    VarEntriesSpliced(s, ps, n, HEAD_SIZE + 4 * n, U32(VarAt(ps, n)));
    HoldsSpliced(s, HEAD_SIZE + 4 * n, U32(VarAt(ps, n)), 4, head);
  }

  lemma {:induction false} VarEntryStored(t: seq<byte>, ps: seq<Posting>, n: nat, p: nat, offset: seq<byte>,
                                          head: seq<byte>)
    requires n < |ps| && VarEntries(t, ps, n) && p == HEAD_SIZE + 4 * n && offset == U32(VarAt(ps, n))
    requires p + 4 <= VarAt(ps, n) && VarAt(ps, n) + VarEntrySize(ps[n]) <= |t|
    requires Holds(t, p, offset) && 4 + |head| <= HEAD_SIZE && Holds(t, 4, head)
    ensures var u := Spliced(t, VarAt(ps, n), VarEntry(ps[n])); VarEntries(u, ps, n + 1) && Holds(u, 4, head)
  {
    var q, entry := VarAt(ps, n), VarEntry(ps[n]);
    var u := Spliced(t, q, entry);
    VarEntriesSpliced(t, ps, n, q, entry);
    HoldsSpliced(t, q, entry, 4, head);
    HoldsSpliced(t, q, entry, p, offset);
    forall i: nat | i < n + 1 ensures VarHeld(u, ps, i) {
      if i < n {
        assert VarHeld(u, ps, i);
      }
    }
  }

  lemma {:induction false} VarEntriesGrow(s: seq<byte>, ps: seq<Posting>, n: nat, head: seq<byte>)
    requires n < |ps| && VarSize(ps) <= |s| && VarEntries(s, ps, n) && 4 + |head| <= HEAD_SIZE && Holds(s, 4, head)
    ensures VarEntries(WithVarEntry(s, ps, n), ps, n + 1) && Holds(WithVarEntry(s, ps, n), 4, head)
  {
    VarOffsetStored(s, ps, n, head);
    var p, offset := HEAD_SIZE + 4 * n, U32(VarAt(ps, n));
    VarEntryStored(Spliced(s, p, offset), ps, n, p, offset, head);
  }

  ghost predicate IsVarImage(s: seq<byte>, ps: seq<Posting>, kind: byte) {
    && Holds(s, 0, Head(VarSize(ps), |ps|, kind, 0, 4))
    && VarEntries(s, ps, |ps|)
    && Holds(s, HEAD_SIZE + 4 * |ps|, U32(VarSize(ps)))
  }

  /** The image takes no more bytes than its head states. */
  lemma {:induction false} VarCut(s: seq<byte>, ps: seq<Posting>, kind: byte)
    requires IsVarImage(s, ps, kind) && VarSize(ps) <= |s|
    ensures IsVarImage(s[..VarSize(ps)], ps, kind)
  {
    var n := VarSize(ps);
    VarRise(ps, 0, |ps|);
    HoldsCut(s, n, 0, Head(n, |ps|, kind, 0, 4));
    HoldsCut(s, n, HEAD_SIZE + 4 * |ps|, U32(n));
    forall i: nat | i < |ps| ensures VarHeld(s[..n], ps, i) {
      assert VarHeld(s, ps, i);
      VarRise(ps, i, |ps|);
      HoldsCut(s, n, HEAD_SIZE + 4 * i, U32(VarAt(ps, i)));
      HoldsCut(s, n, VarAt(ps, i), VarEntry(ps[i]));
    }
  }

  method WriteVarEntry(data: array<byte>, at: nat, p: Posting) returns (next: nat)
    requires at + VarEntrySize(p) <= data.Length
    modifies data
    ensures data[..] == Spliced(old(data[..]), at, VarEntry(p)) && next == at + VarEntrySize(p)
  {
    SplicedTwice(data[..], at, U16(|p.key|) + p.key, U32(|p.ids|) + Words(p.ids));
    WriteSlot(data, at, U16(|p.key|), p.key);
    next := at + 2 + |p.key|;
    WriteSlot(data, next, U32(|p.ids|), Words(p.ids));
    next := next + 4 + 4 * |p.ids|;
  }

  /** The last stores of the writer: the end offset behind the table, and the size. */
  method FinishVar(data: array<byte>, ghost ps: seq<Posting>, ghost kind: byte, indexPos: nat, size: nat)
    requires VarEntries(data[..], ps, |ps|) && size == VarSize(ps) && indexPos == HEAD_SIZE + 4 * |ps|
    requires VarSize(ps) <= data.Length && Holds(data[..], 4, HeadTail(|ps|, kind, 0, 4))
    modifies data
    ensures IsVarImage(data[..], ps, kind)
  {
    ghost var s, tail := data[..], HeadTail(|ps|, kind, 0, 4);
    VarRise(ps, 0, |ps|);
    VarEntriesSpliced(s, ps, |ps|, indexPos, U32(size));
    HoldsSpliced(s, indexPos, U32(size), 4, tail);
    Put(data, indexPos, U32(size));
    s := data[..];
    VarEntriesSpliced(s, ps, |ps|, 0, U32(size));
    HoldsSpliced(s, 0, U32(size), 4, tail);
    HoldsSpliced(s, 0, U32(size), indexPos, U32(size));
    Put(data, 0, U32(size));
    HoldsJoin(data[..], 0, U32(size), tail);
  }

  /** createVarSolidIndex for binaryType and unionKey, appendingIndex.cpp lines 240-284. */
  method CreateVar(data: array<byte>, ps: seq<Posting>, kind: byte)
    requires ps != [] && VarSize(ps) <= data.Length
    modifies data
    ensures IsVarImage(data[..], ps, kind)
  {
    var indexPos, externPos := HEAD_SIZE, HEAD_SIZE + 4 * (|ps| + 1);
    var tail := HeadTail(|ps|, kind, 0, 4);
    VarRise(ps, 0, |ps|);
    HoldsSpliced(data[..], 4, tail, 4, tail);
    Put(data, 4, tail);
    for i := 0 to |ps|
      invariant indexPos == HEAD_SIZE + 4 * i && externPos == VarAt(ps, i)
      invariant VarEntries(data[..], ps, i) && Holds(data[..], 4, tail)
    {
      VarEntriesGrow(data[..], ps, i, tail);
      VarRise(ps, i, |ps|);
      Put(data, indexPos, U32(externPos));
      indexPos := indexPos + 4;
      externPos := WriteVarEntry(data, externPos, ps[i]);
    }
    FinishVar(data, ps, kind, indexPos, externPos);
  }
}
