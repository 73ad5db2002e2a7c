/**
  The row format of DML records: the offset tables built by tableMeta::buildColumnOffsetList
  (meta/metaData.cpp:359-391) and the setters and readers of DMLRecord (message/record.h). Only the new
  image of a row is modelled.
 */
module Row {
  import opened Bytes
  import opened Options
  import opened Bits

  /** A column of a fixed number of bytes, or of any length. */
  datatype Kind = Fixed(size: nat) | Var

  const HEAD_SIZE: nat := 38
  const TABLE_ID_SIZE: nat := 8
  const BITMAP_AT: nat := HEAD_SIZE + TABLE_ID_SIZE

  // ---------------------------------------------------------------- bits of a byte

  function SetBit(b: byte, k: nat): byte
    requires k < 8
  {
    BitRange(b, k, 8);
    assert Pow2(4) == 16 && Pow2(8) == 256;
    WithBit(b, k)
  }

  function ClearBit(b: byte, k: nat): byte
    requires k < 8
  {
    BitRange(b, k, 8);
    assert Pow2(4) == 16 && Pow2(8) == 256;
    WithoutBit(b, k)
  }

  // ---------------------------------------------------------------- the shape of a table

  function FixedCount(kinds: seq<Kind>): nat {
    if kinds == [] then 0 else FixedCount(kinds[..|kinds| - 1]) + if kinds[|kinds| - 1].Fixed? then 1 else 0
  }

  function VarCount(kinds: seq<Kind>): nat {
    if kinds == [] then 0 else VarCount(kinds[..|kinds| - 1]) + if kinds[|kinds| - 1].Var? then 1 else 0
  }

  function FixedBytes(kinds: seq<Kind>): nat {
    if kinds == [] then 0
    else FixedBytes(kinds[..|kinds| - 1]) + match kinds[|kinds| - 1] case Fixed(n) => n case Var => 0
  }

  /** What buildColumnOffsetList leaves in the table's meta data; offsets are 16-bit numbers. */
  datatype Table = Table(kinds: seq<Kind>, realIndex: seq<nat>, offsets: seq<nat>, fixedCount: nat, varCount: nat)

  /** Column i has its rank among the columns of its kind, and a fixed column the sum of the sizes before it. */
  ghost predicate Placed(kinds: seq<Kind>, realIndex: seq<nat>, offsets: seq<nat>, i: nat)
    requires i < |kinds| == |realIndex|
  {
    match kinds[i]
    case Var => realIndex[i] == VarCount(kinds[..i])
    case Fixed(_) =>
      && realIndex[i] == FixedCount(kinds[..i]) < |offsets|
      && offsets[realIndex[i]] == FixedBytes(kinds[..i]) % WORD16
  }

  ghost predicate AllPlaced(kinds: seq<Kind>, realIndex: seq<nat>, offsets: seq<nat>, n: nat) {
    && n <= |kinds| == |realIndex| && |offsets| == FixedCount(kinds) + 1
    && (forall i: nat {:trigger Placed(kinds, realIndex, offsets, i)} | i < n :: Placed(kinds, realIndex, offsets, i))
  }

  ghost predicate TableOk(t: Table) {
    && t.fixedCount == FixedCount(t.kinds) && t.varCount == VarCount(t.kinds)
    && AllPlaced(t.kinds, t.realIndex, t.offsets, |t.kinds|)
    && t.offsets[t.fixedCount] == FixedBytes(t.kinds) % WORD16
  }

  lemma Snoc(kinds: seq<Kind>, i: nat)
    requires i < |kinds|
    ensures FixedCount(kinds[..i + 1]) == FixedCount(kinds[..i]) + if kinds[i].Fixed? then 1 else 0
    ensures VarCount(kinds[..i + 1]) == VarCount(kinds[..i]) + if kinds[i].Var? then 1 else 0
    ensures FixedBytes(kinds[..i + 1]) == FixedBytes(kinds[..i]) + match kinds[i] case Fixed(n) => n case Var => 0
  {
    assert kinds[..i + 1][..i] == kinds[..i];
  }

  lemma {:induction false} Monotone(kinds: seq<Kind>, i: nat, j: nat)
    requires i <= j <= |kinds|
    ensures FixedCount(kinds[..i]) <= FixedCount(kinds[..j])
    ensures VarCount(kinds[..i]) <= VarCount(kinds[..j])
    ensures FixedBytes(kinds[..i]) <= FixedBytes(kinds[..j])
  {
    if i < j {
      Monotone(kinds, i, j - 1);
      Snoc(kinds, j - 1);
    }
  }

  /** Filling in column n: its offset goes behind those of the fixed columns before it. */
  lemma PlaceColumn(kinds: seq<Kind>, realIndex: seq<nat>, offsets: seq<nat>, n: nat)
    requires n < |kinds| && AllPlaced(kinds, realIndex, offsets, n)
    ensures FixedCount(kinds[..n]) < |offsets|
    ensures kinds[n].Var? ==> AllPlaced(kinds, realIndex[n := VarCount(kinds[..n])], offsets, n + 1)
    ensures kinds[n].Fixed? ==>
              AllPlaced(kinds, realIndex[n := FixedCount(kinds[..n])],
                        offsets[FixedCount(kinds[..n]) := FixedBytes(kinds[..n]) % WORD16], n + 1)
  {
    assert kinds[..|kinds|] == kinds;
    Monotone(kinds, n, |kinds|);
    var f := FixedCount(kinds[..n]);
    var realIndex' := realIndex[n := if kinds[n].Var? then VarCount(kinds[..n]) else f];
    var offsets' := if kinds[n].Var? then offsets else offsets[f := FixedBytes(kinds[..n]) % WORD16];
    forall j: nat | j < n + 1 ensures Placed(kinds, realIndex', offsets', j) {
      if j < n {
        assert Placed(kinds, realIndex, offsets, j);
        Snoc(kinds, j);
        Monotone(kinds, j + 1, n);
      }
    }
  }

  lemma PlaceEnd(kinds: seq<Kind>, realIndex: seq<nat>, offsets: seq<nat>, end: nat)
    requires AllPlaced(kinds, realIndex, offsets, |kinds|)
    ensures AllPlaced(kinds, realIndex, offsets[FixedCount(kinds) := end], |kinds|)
  {
    var offsets' := offsets[FixedCount(kinds) := end];
    assert kinds[..|kinds|] == kinds;
    forall j: nat | j < |kinds| ensures Placed(kinds, realIndex, offsets', j) {
      assert Placed(kinds, realIndex, offsets, j);
      Snoc(kinds, j);
      Monotone(kinds, j + 1, |kinds|);
    }
  }

  method CountColumns(kinds: seq<Kind>) returns (fixedCount: nat, varCount: nat)
    ensures fixedCount == FixedCount(kinds) && varCount == VarCount(kinds)
  {
    fixedCount, varCount := 0, 0;
    for i := 0 to |kinds|
      invariant fixedCount == FixedCount(kinds[..i]) && varCount == VarCount(kinds[..i])
    {
      Snoc(kinds, i);
      if kinds[i].Fixed? {
        fixedCount := fixedCount + 1;
      } else {
        varCount := varCount + 1;
      }
    }
    assert kinds[..|kinds|] == kinds;
  }

  /** buildColumnOffsetList. */
  method BuildOffsets(kinds: seq<Kind>) returns (t: Table)
    ensures t.kinds == kinds && TableOk(t)
  {
    var fixedCount, varCount := CountColumns(kinds);
    var realIndex: seq<nat> := seq(|kinds|, _ => 0);
    var offsets: seq<nat> := seq(fixedCount + 1, _ => 0);
    fixedCount, varCount := 0, 0;
    var fixedOffset: nat := 0;
    for i := 0 to |kinds|
      invariant AllPlaced(kinds, realIndex, offsets, i)
      invariant fixedCount == FixedCount(kinds[..i]) && varCount == VarCount(kinds[..i])
      invariant fixedOffset == FixedBytes(kinds[..i])
    {
      Snoc(kinds, i);
      PlaceColumn(kinds, realIndex, offsets, i);
      if kinds[i].Fixed? {
        offsets := offsets[fixedCount := fixedOffset % WORD16];
        fixedOffset := fixedOffset + kinds[i].size;
        realIndex := realIndex[i := fixedCount];
        fixedCount := fixedCount + 1;
      } else {
        realIndex := realIndex[i := varCount];
        varCount := varCount + 1;
      }
    }
    assert kinds[..|kinds|] == kinds;
    PlaceEnd(kinds, realIndex, offsets, fixedOffset % WORD16);
    offsets := offsets[fixedCount := fixedOffset % WORD16];
    t := Table(kinds, realIndex, offsets, fixedCount, varCount);
  }

  // ---------------------------------------------------------------- where things lie in a record

  /** BITMAP_SIZE, line 118 of record.h: a multiple of 8 that is no multiple of 128 gets one byte more than it needs. */
  function BitmapSize(n: nat): nat { n / 8 + if n % 128 != 0 then 1 else 0 }

  /** The bitmap has a bit for every column, and at most one byte more than it needs. */
  lemma BitmapHasRoom(n: nat)
    ensures n <= 8 * BitmapSize(n) < n + 16
    ensures BitmapSize(n) == (n + 7) / 8 + if n % 8 == 0 && n % 128 != 0 then 1 else 0
  {
  }

  function ColumnsAt(t: Table): nat { BITMAP_AT + BitmapSize(|t.kinds|) }

  /** The offset tables are usable: the fixed columns together stay below the 16-bit limit. */
  ghost predicate Usable(t: Table) { TableOk(t) && FixedBytes(t.kinds) < WORD16 }

  function FixedEnd(t: Table): nat { FixedBytes(t.kinds) }

  function VarTableAt(t: Table): nat { ColumnsAt(t) + FixedEnd(t) }

  function VarSlotAt(t: Table, rank: nat): nat { VarTableAt(t) + 4 * rank }

  /** Where the bytes of variable length begin, counted from the columns. */
  function VarBase(t: Table): nat { FixedEnd(t) + 4 * (VarCount(t.kinds) + 1) }

  /** allocSize, lines 294-300. */
  function AllocSize(t: Table): nat { ColumnsAt(t) + VarBase(t) }

  function Rank(t: Table, i: nat): nat
    requires i <= |t.kinds|
  {
    VarCount(t.kinds[..i])
  }

  function FieldAt(t: Table, i: nat): nat
    requires i <= |t.kinds|
  {
    ColumnsAt(t) + FixedBytes(t.kinds[..i])
  }

  type Values = seq<Option<seq<byte>>>

  /** The bytes of variable length in the first i columns. */
  function VarLength(t: Table, row: Values, i: nat): nat
    requires i <= |row| == |t.kinds|
  {
    if i == 0 then 0
    else VarLength(t, row, i - 1) + if t.kinds[i - 1].Var? && row[i - 1].Some? then |row[i - 1].value| else 0
  }

  function StartOf(t: Table, row: Values, i: nat): nat
    requires i <= |row| == |t.kinds|
  {
    VarBase(t) + VarLength(t, row, i)
  }

  /** A row for this table, not longer than the 32-bit offsets allow. */
  ghost predicate RowOk(t: Table, row: Values) {
    && |row| == |t.kinds|
    && (forall i: nat {:trigger ValueOk(t, row, i)} | i < |row| :: ValueOk(t, row, i))
    && AllocSize(t) + VarLength(t, row, |row|) < WORD32
  }

  ghost predicate ValueOk(t: Table, row: Values, i: nat)
    requires i < |row| == |t.kinds|
  {
    t.kinds[i].Fixed? && row[i].Some? ==> |row[i].value| == t.kinds[i].size
  }

  function RecordSize(t: Table, row: Values): nat
    requires |row| == |t.kinds|
  {
    AllocSize(t) + VarLength(t, row, |row|)
  }

  lemma {:induction false} LengthsRise(t: Table, row: Values, i: nat, j: nat)
    requires i <= j <= |row| == |t.kinds|
    ensures VarLength(t, row, i) <= VarLength(t, row, j)
    ensures i < j && t.kinds[i].Var? && row[i].Some? ==> VarLength(t, row, i) + |row[i].value| <= VarLength(t, row, j)
    decreases j
  {
    if i < j {
      LengthsRise(t, row, i, j - 1);
    }
  }

  // ---------------------------------------------------------------- what a record holds

  function Zeros(n: nat): (b: seq<byte>)
    ensures |b| == n
  {
    seq(n, _ => 0)
  }

  /** What a field of n bytes holds: its value, or zeros when it is null. */
  function FieldOf(n: nat, value: Option<seq<byte>>): seq<byte> {
    if value.Some? then value.value else Zeros(n)
  }

  /** The bytes of column i: its field, or its start in the table and its value. */
  ghost predicate ColumnHeld(s: seq<byte>, t: Table, row: Values, i: nat)
    requires i < |row| == |t.kinds|
  {
    if t.kinds[i].Fixed? then Holds(s, FieldAt(t, i), FieldOf(t.kinds[i].size, row[i]))
    else
      && Holds(s, VarSlotAt(t, Rank(t, i)), U32(StartOf(t, row, i)))
      && (row[i].Some? ==> Holds(s, ColumnsAt(t) + StartOf(t, row, i), row[i].value))
  }

  ghost predicate ColumnsHeld(s: seq<byte>, t: Table, row: Values, k: nat) {
    && k <= |row| == |t.kinds|
    && (forall i: nat {:trigger ColumnHeld(s, t, row, i)} | i < k :: ColumnHeld(s, t, row, i))
  }

  predicate IsSet(s: seq<byte>, i: nat)
    requires BITMAP_AT + i / 8 < |s|
  {
    Bit(s[BITMAP_AT + i / 8], i % 8)
  }

  /** The bit of column i is set exactly when it is one of the first k columns and not null. */
  ghost predicate BitsOk(s: seq<byte>, row: Values, k: nat) {
    && BITMAP_AT + BitmapSize(|row|) <= |s|
    && (forall i: nat {:trigger IsSet(s, i)} | i < |row| :: BitInMap(|row|, i); IsSet(s, i) <==> i < k && row[i].Some?)
  }

  lemma BitInMap(n: nat, i: nat)
    requires i < n
    ensures i / 8 < BitmapSize(n)
  {
  }

  /** The first k columns have been set; the last table entry is the end of the bytes of variable length. */
  ghost predicate Written(s: seq<byte>, t: Table, row: Values, k: nat) {
    && RowOk(t, row) && RecordSize(t, row) <= |s| && s[5] == HEAD_SIZE
    && ColumnsHeld(s, t, row, k)
    && BitsOk(s, row, k)
    && Holds(s, VarSlotAt(t, VarCount(t.kinds)), U32(StartOf(t, row, k)))
  }

  // ---------------------------------------------------------------- stores that disturb nothing

  /** A place that no value, field or start of the first k columns uses. */
  ghost predicate Unused(t: Table, row: Values, k: nat, at: nat, size: nat)
    requires k <= |row| == |t.kinds|
  {
    || at + size <= ColumnsAt(t)
    || (FieldAt(t, k) <= at && at + size <= VarTableAt(t))
    || (VarSlotAt(t, Rank(t, k)) <= at && at + size <= AllocSize(t))
    || ColumnsAt(t) + StartOf(t, row, k) <= at
  }

  lemma {:induction false} FieldIsApart(t: Table, row: Values, k: nat, at: nat, size: nat, i: nat)
    requires i < k <= |row| == |t.kinds| && Unused(t, row, k, at, size) && t.kinds[i].Fixed?
    ensures at + size <= FieldAt(t, i) || FieldAt(t, i) + t.kinds[i].size <= at
  {
    Snoc(t.kinds, i);
    Monotone(t.kinds, i + 1, k);
    Monotone(t.kinds, k, |t.kinds|);
    assert t.kinds[..|t.kinds|] == t.kinds;
  }

  lemma {:induction false} SlotIsApart(t: Table, row: Values, k: nat, at: nat, size: nat, i: nat)
    requires i < k <= |row| == |t.kinds| && Unused(t, row, k, at, size) && t.kinds[i].Var?
    ensures at + size <= VarSlotAt(t, Rank(t, i)) || VarSlotAt(t, Rank(t, i)) + 4 <= at
    ensures row[i].Some? ==>
              var p := ColumnsAt(t) + StartOf(t, row, i); at + size <= p || p + |row[i].value| <= at
  {
    Snoc(t.kinds, i);
    Monotone(t.kinds, i + 1, k);
    Monotone(t.kinds, k, |t.kinds|);
    assert t.kinds[..|t.kinds|] == t.kinds;
    LengthsRise(t, row, i, k);
  }

  lemma {:induction false} ColumnsSpliced(s: seq<byte>, t: Table, row: Values, k: nat, at: nat, b: seq<byte>)
    requires RowOk(t, row) && ColumnsHeld(s, t, row, k) && at + |b| <= |s| && Unused(t, row, k, at, |b|)
    ensures ColumnsHeld(Spliced(s, at, b), t, row, k)
  {
    var s' := Spliced(s, at, b);
    forall i: nat | i < k ensures ColumnHeld(s', t, row, i) {
      assert ColumnHeld(s, t, row, i);
      ColumnSpliced(s, t, row, k, at, b, i);
    }
  }

  lemma {:induction false} ColumnSpliced(s: seq<byte>, t: Table, row: Values, k: nat, at: nat, b: seq<byte>, i: nat)
    requires RowOk(t, row) && i < k <= |row| && ColumnHeld(s, t, row, i) && at + |b| <= |s|
    requires Unused(t, row, k, at, |b|)
    ensures ColumnHeld(Spliced(s, at, b), t, row, i)
  {
    if t.kinds[i].Fixed? {
      assert ValueOk(t, row, i);
      FieldIsApart(t, row, k, at, |b|, i);
      HoldsSpliced(s, at, b, FieldAt(t, i), FieldOf(t.kinds[i].size, row[i]));
    } else {
      SlotIsApart(t, row, k, at, |b|, i);
      HoldsSpliced(s, at, b, VarSlotAt(t, Rank(t, i)), U32(StartOf(t, row, i)));
      if row[i].Some? {
        HoldsSpliced(s, at, b, ColumnsAt(t) + StartOf(t, row, i), row[i].value);
      }
    }
  }

  lemma BitsSpliced(s: seq<byte>, row: Values, k: nat, at: nat, b: seq<byte>)
    requires BitsOk(s, row, k) && BITMAP_AT + BitmapSize(|row|) <= at && at + |b| <= |s|
    ensures BitsOk(Spliced(s, at, b), row, k)
  {
    var s' := Spliced(s, at, b);
    forall i: nat | i < |row| ensures BITMAP_AT + i / 8 < |s'| && (IsSet(s', i) <==> i < k && row[i].Some?) {
      BitInMap(|row|, i);
      assert IsSet(s, i) <==> i < k && row[i].Some?;
    }
  }

  /** What initRecord stores once: extern size, head size, type and version, and the id of the table's meta data. */
  function Front(s: seq<byte>): (seq<byte>, seq<byte>) {
    if |s| < BITMAP_AT then ([], []) else (s[4..8], s[HEAD_SIZE..BITMAP_AT])
  }

  lemma SplicedFront(s: seq<byte>, at: nat, b: seq<byte>)
    requires (BITMAP_AT <= at || at + |b| <= 4) && at + |b| <= |s|
    ensures Front(Spliced(s, at, b)) == Front(s)
  {
    var t := Spliced(s, at, b);
    if |s| >= BITMAP_AT {
      assert t[4..8] == s[4..8] && t[HEAD_SIZE..BITMAP_AT] == s[HEAD_SIZE..BITMAP_AT];
    }
  }

  /** SET_BITMAP or UNSET_BITMAP on the bit of column i. */
  function Marked(s: seq<byte>, i: nat, on: bool): (r: seq<byte>)
    requires BITMAP_AT + i / 8 < |s|
    ensures |r| == |s|
  {
    var p := BITMAP_AT + i / 8;
    Spliced(s, p, [if on then SetBit(s[p], i % 8) else ClearBit(s[p], i % 8)])
  }

  lemma MarkNext(s: seq<byte>, row: Values, k: nat)
    requires k < |row| && BitsOk(s, row, k)
    ensures BITMAP_AT + k / 8 < |s|
    ensures BitsOk(Marked(s, k, row[k].Some?), row, k + 1)
  {
    BitInMap(|row|, k);
    var s' := Marked(s, k, row[k].Some?);
    forall i: nat | i < |row| ensures BITMAP_AT + i / 8 < |s'| && (IsSet(s', i) <==> i < k + 1 && row[i].Some?) {
      BitInMap(|row|, i);
      assert IsSet(s, i) <==> i < k && row[i].Some?;
      if i / 8 == k / 8 {
        OneBit(s[BITMAP_AT + k / 8], k % 8, i % 8);
        assert s'[BITMAP_AT + k / 8] == if row[k].Some? then SetBit(s[BITMAP_AT + k / 8], k % 8)
            else ClearBit(s[BITMAP_AT + k / 8], k % 8);
      } else {
        assert s'[BITMAP_AT + i / 8] == s[BITMAP_AT + i / 8];
      }
    }
  }

  // ---------------------------------------------------------------- setting the next column

  /** setFixedColumn, lines 302-314: the value into its field, then the bit. */
  function AfterFixed(s: seq<byte>, t: Table, i: nat, v: seq<byte>): (r: seq<byte>)
    requires i < |t.kinds| && FieldAt(t, i) + |v| <= |s| && BITMAP_AT + i / 8 < |s|
    ensures |r| == |s|
  {
    Marked(Spliced(s, FieldAt(t, i), v), i, true)
  }

  /** setFixedColumnNull, lines 335-339: the bit first, then zeros into the field. */
  function AfterFixedNull(s: seq<byte>, t: Table, i: nat, zeros: seq<byte>): (r: seq<byte>)
    requires i < |t.kinds| && FieldAt(t, i) + |zeros| <= |s| && BITMAP_AT + i / 8 < |s|
    ensures |r| == |s|
  {
    Spliced(Marked(s, i, false), FieldAt(t, i), zeros)
  }

  /** The end of the bytes of variable length, kept in the last entry of the table. */
  function EndWord(s: seq<byte>, t: Table): nat
    requires VarSlotAt(t, VarCount(t.kinds)) + 4 <= |s|
  {
    GetU32(s, VarSlotAt(t, VarCount(t.kinds)))
  }

  /** setVarColumn, lines 319-329: the value at the end, the old end as start, the new end, then the bit. */
  function AfterVar(s: seq<byte>, t: Table, i: nat, v: seq<byte>, end: nat): (r: seq<byte>)
    requires i < |t.kinds| && AllocSize(t) <= |s| && Rank(t, i) < VarCount(t.kinds)
    requires ColumnsAt(t) + end + |v| <= |s| && BITMAP_AT + i / 8 < |s|
    ensures |r| == |s|
  {
    Marked(VarStores(s, t, i, v, end), i, true)
  }

  /** setVarColumnNull, lines 330-334. */
  function AfterVarNull(s: seq<byte>, t: Table, i: nat, end: nat): (r: seq<byte>)
    requires i < |t.kinds| && AllocSize(t) <= |s| && Rank(t, i) < VarCount(t.kinds) && BITMAP_AT + i / 8 < |s|
    ensures |r| == |s|
  {
    Spliced(Marked(s, i, false), VarSlotAt(t, Rank(t, i)), U32(end))
  }

  /** The places the setters of column k write to. */
  lemma {:induction false} Places(t: Table, row: Values, k: nat)
    requires RowOk(t, row) && k < |row|
    ensures BITMAP_AT + k / 8 < ColumnsAt(t) && ColumnsAt(t) <= FieldAt(t, k)
    ensures t.kinds[k].Fixed? ==> FieldAt(t, k) + t.kinds[k].size <= VarTableAt(t)
    ensures t.kinds[k].Fixed? ==> Rank(t, k + 1) == Rank(t, k) && FieldAt(t, k + 1) == FieldAt(t, k) + t.kinds[k].size
    ensures t.kinds[k].Var? ==> Rank(t, k) < VarCount(t.kinds) && Rank(t, k + 1) == Rank(t, k) + 1
    ensures AllocSize(t) <= ColumnsAt(t) + StartOf(t, row, k) &&
              ColumnsAt(t) + StartOf(t, row, k + 1) <= RecordSize(t, row)
  {
    BitInMap(|row|, k);
    Snoc(t.kinds, k);
    Monotone(t.kinds, k + 1, |t.kinds|);
    assert t.kinds[..|t.kinds|] == t.kinds;
    LengthsRise(t, row, k + 1, |row|);
  }

  lemma {:induction false} HeldNext(s: seq<byte>, t: Table, row: Values, k: nat)
    requires k < |row| && ColumnsHeld(s, t, row, k) && ColumnHeld(s, t, row, k)
    ensures ColumnsHeld(s, t, row, k + 1)
  {
    forall i: nat | i < k + 1 ensures ColumnHeld(s, t, row, i) {
      if i < k {
        assert ColumnHeld(s, t, row, i);
      }
    }
  }

  lemma {:induction false} MarkKeepsColumns(s: seq<byte>, t: Table, row: Values, k: nat, i: nat, on: bool)
    requires RowOk(t, row) && i < |row| && ColumnsHeld(s, t, row, k) && ColumnsAt(t) <= |s|
    ensures BITMAP_AT + i / 8 < |s| && ColumnsHeld(Marked(s, i, on), t, row, k)
  {
    BitInMap(|row|, i);
    var p := BITMAP_AT + i / 8;
    ColumnsSpliced(s, t, row, k, p, [if on then SetBit(s[p], i % 8) else ClearBit(s[p], i % 8)]);
  }

  lemma MarkKeeps(s: seq<byte>, i: nat, on: bool, at: nat, b: seq<byte>)
    requires BITMAP_AT + i / 8 < |s| && BITMAP_AT + i / 8 < at && Holds(s, at, b)
    ensures Holds(Marked(s, i, on), at, b)
  {
    var p := BITMAP_AT + i / 8;
    HoldsSpliced(s, p, [if on then SetBit(s[p], i % 8) else ClearBit(s[p], i % 8)], at, b);
  }

  lemma {:induction false} FixedKeeps(s: seq<byte>, t: Table, row: Values, k: nat)
    requires Written(s, t, row, k) && k < |row| && t.kinds[k].Fixed? && row[k].Some?
    ensures FieldAt(t, k) + |row[k].value| <= |s| && BITMAP_AT + k / 8 < |s|
    ensures Written(AfterFixed(s, t, k, row[k].value), t, row, k + 1)
  {
    Places(t, row, k);
    assert ValueOk(t, row, k);
    var v, at, slot, end := row[k].value, FieldAt(t, k), VarSlotAt(t, VarCount(t.kinds)), U32(StartOf(t, row, k));
    var s1 := Spliced(s, at, v);
    ColumnsSpliced(s, t, row, k, at, v);
    HoldsSpliced(s, at, v, slot, end);
    BitsSpliced(s, row, k, at, v);
    HeldNext(s1, t, row, k);
    MarkKeepsColumns(s1, t, row, k + 1, k, true);
    MarkNext(s1, row, k);
    MarkKeeps(s1, k, true, slot, end);
  }

  lemma {:induction false} FixedNullKeeps(s: seq<byte>, t: Table, row: Values, k: nat, zeros: seq<byte>)
    requires Written(s, t, row, k) && k < |row| && t.kinds[k].Fixed? && row[k].None? && zeros == Zeros(t.kinds[k].size)
    ensures FieldAt(t, k) + |zeros| <= |s| && BITMAP_AT + k / 8 < |s|
    ensures Written(AfterFixedNull(s, t, k, zeros), t, row, k + 1)
  {
    Places(t, row, k);
    var at, slot, end := FieldAt(t, k), VarSlotAt(t, VarCount(t.kinds)), U32(StartOf(t, row, k));
    MarkKeepsColumns(s, t, row, k, k, false);
    MarkNext(s, row, k);
    MarkKeeps(s, k, false, slot, end);
    var s1 := Marked(s, k, false);
    ColumnsSpliced(s1, t, row, k, at, zeros);
    HoldsSpliced(s1, at, zeros, slot, end);
    BitsSpliced(s1, row, k + 1, at, zeros);
    HeldNext(Spliced(s1, at, zeros), t, row, k);
  }

  ghost predicate SoFar(s: seq<byte>, t: Table, row: Values, k: nat, bits: nat) {
    && RowOk(t, row) && RecordSize(t, row) <= |s| && s[5] == HEAD_SIZE
    && ColumnsHeld(s, t, row, k) && BitsOk(s, row, bits)
  }

  lemma {:induction false} SoFarSpliced(s: seq<byte>, t: Table, row: Values, k: nat, bits: nat, at: nat, b: seq<byte>)
    requires SoFar(s, t, row, k, bits) && ColumnsAt(t) <= at && at + |b| <= |s| && Unused(t, row, k, at, |b|)
    ensures SoFar(Spliced(s, at, b), t, row, k, bits) && Holds(Spliced(s, at, b), at, b)
  {
    ColumnsSpliced(s, t, row, k, at, b);
    BitsSpliced(s, row, bits, at, b);
    HoldsSpliced(s, at, b, at, b);
  }

  lemma {:induction false} SoFarValue(s: seq<byte>, t: Table, row: Values, k: nat, bits: nat, at: nat, b: seq<byte>)
    requires SoFar(s, t, row, k, bits) && AllocSize(t) <= at && at + |b| <= |s|
    requires ColumnsAt(t) + StartOf(t, row, k) <= at
    ensures SoFar(Spliced(s, at, b), t, row, k, bits)
  {
    SoFarSpliced(s, t, row, k, bits, at, b);
  }

  lemma {:induction false} SoFarSlot(s: seq<byte>, t: Table, row: Values, k: nat, bits: nat, at: nat, b: seq<byte>)
    requires SoFar(s, t, row, k, bits) && VarSlotAt(t, Rank(t, k)) <= at && at + |b| <= AllocSize(t)
    ensures AllocSize(t) <= |s| && SoFar(Spliced(s, at, b), t, row, k, bits)
  {
    SoFarSpliced(s, t, row, k, bits, at, b);
  }

  lemma {:induction false} VarNullKeeps(s: seq<byte>, t: Table, row: Values, k: nat)
    requires Written(s, t, row, k) && k < |row| && t.kinds[k].Var? && row[k].None?
    ensures Rank(t, k) < VarCount(t.kinds) && BITMAP_AT + k / 8 < |s| && AllocSize(t) <= |s|
    ensures Written(AfterVarNull(s, t, k, StartOf(t, row, k)), t, row, k + 1)
  {
    VarPlaces(t, row, k);
    var at, slot, end := VarSlotAt(t, Rank(t, k)), VarSlotAt(t, VarCount(t.kinds)), U32(StartOf(t, row, k));
    ClearedBit(s, t, row, k, slot, end);
    NullStart(Marked(s, k, false), t, row, k, at, slot, end);
  }

  lemma {:induction false} NullStart(s: seq<byte>, t: Table, row: Values, k: nat, at: nat, slot: nat, end: seq<byte>)
    requires SoFar(s, t, row, k, k + 1) && k < |row| && t.kinds[k].Var? && row[k].None?
    requires at == VarSlotAt(t, Rank(t, k)) && slot == VarSlotAt(t, VarCount(t.kinds))
    requires end == U32(StartOf(t, row, k)) && Holds(s, slot, end)
    ensures at + |end| <= |s| && Written(Spliced(s, at, end), t, row, k + 1)
  {
    VarPlaces(t, row, k);
    SoFarSlot(s, t, row, k, k + 1, at, end);
    StartAndEnd(s, at, slot, end);
    HeldNext(Spliced(s, at, end), t, row, k);
  }

  lemma {:induction false} ClearedBit(s: seq<byte>, t: Table, row: Values, k: nat, slot: nat, end: seq<byte>)
    requires SoFar(s, t, row, k, k) && k < |row| && row[k].None?
    requires ColumnsAt(t) <= |s| && BITMAP_AT + k / 8 < slot && Holds(s, slot, end) && s[5] == HEAD_SIZE
    ensures BITMAP_AT + k / 8 < |s| && SoFar(Marked(s, k, false), t, row, k, k + 1)
    ensures Holds(Marked(s, k, false), slot, end)
  {
    MarkKeepsColumns(s, t, row, k, k, false);
    MarkNext(s, row, k);
    MarkKeeps(s, k, false, slot, end);
  }

  /** A start that is the end word or lies apart from it leaves the end word as it is. */
  lemma StartAndEnd(s: seq<byte>, at: nat, slot: nat, end: seq<byte>)
    requires at + |end| <= |s| && Holds(s, slot, end) && (at + |end| <= slot || at == slot)
    ensures Holds(Spliced(s, at, end), at, end) && Holds(Spliced(s, at, end), slot, end)
  {
    HoldsSpliced(s, at, end, at, end);
    HoldsSpliced(s, at, end, slot, end);
  }

  /** The stores of setVarColumn before it sets the bit. */
  function VarStores(s: seq<byte>, t: Table, i: nat, v: seq<byte>, end: nat): (r: seq<byte>)
    requires i < |t.kinds| && AllocSize(t) <= |s| && Rank(t, i) < VarCount(t.kinds)
    requires ColumnsAt(t) + end + |v| <= |s|
    ensures |r| == |s|
  {
    var s1 := Spliced(s, ColumnsAt(t) + end, v);
    var s2 := Spliced(s1, VarSlotAt(t, Rank(t, i)), U32(end));
    Spliced(s2, VarSlotAt(t, VarCount(t.kinds)), U32(end + |v|))
  }

  /** The start of column k, the end word, and behind them the place of its value. */
  lemma {:induction false} VarPlaces(t: Table, row: Values, k: nat)
    requires RowOk(t, row) && k < |row| && t.kinds[k].Var?
    ensures Rank(t, k) < VarCount(t.kinds) && ColumnsAt(t) <= VarSlotAt(t, Rank(t, k))
    ensures VarSlotAt(t, Rank(t, k)) + 4 <= VarSlotAt(t, VarCount(t.kinds))
    ensures VarSlotAt(t, VarCount(t.kinds)) + 4 == AllocSize(t) <= ColumnsAt(t) + StartOf(t, row, k)
    ensures row[k].Some? ==> ColumnsAt(t) + StartOf(t, row, k) + |row[k].value| <= RecordSize(t, row)
    ensures BITMAP_AT + k / 8 < ColumnsAt(t)
  {
    Places(t, row, k);
  }

  /** A value and two words in front of it, stored one after the other. */
  lemma ThreeStores(s: seq<byte>, p: nat, v: seq<byte>, q: nat, x: seq<byte>, r: nat, y: seq<byte>)
    requires q + |x| <= r && r + |y| <= p && p + |v| <= |s|
    ensures var t := Spliced(Spliced(Spliced(s, p, v), q, x), r, y); Holds(t, p, v) && Holds(t, q, x) && Holds(t, r, y)
  {
    var s1 := Spliced(s, p, v);
    HoldsSpliced(s, p, v, p, v);
    var s2 := Spliced(s1, q, x);
    HoldsSpliced(s1, q, x, p, v);
    HoldsSpliced(s2, r, y, p, v);
    HoldsSpliced(s2, r, y, q, x);
  }

  lemma {:induction false} VarStoresKeep(s: seq<byte>, t: Table, row: Values, k: nat)
    requires SoFar(s, t, row, k, k) && k < |row| && t.kinds[k].Var? && row[k].Some?
    ensures Rank(t, k) < VarCount(t.kinds) && AllocSize(t) <= |s| &&
              ColumnsAt(t) + StartOf(t, row, k) + |row[k].value| <= |s|
    ensures SoFar(VarStores(s, t, k, row[k].value, StartOf(t, row, k)), t, row, k, k)
  {
    VarPlaces(t, row, k);
    var end, v := StartOf(t, row, k), row[k].value;
    var p, q := ColumnsAt(t) + end, VarSlotAt(t, Rank(t, k));
    SoFarValue(s, t, row, k, k, p, v);
    SoFarTwoSlots(Spliced(s, p, v), t, row, k, q, U32(end), VarSlotAt(t, VarCount(t.kinds)), U32(end + |v|));
  }

  lemma {:induction false} SoFarTwoSlots(s: seq<byte>, t: Table, row: Values, k: nat, q: nat, x: seq<byte>, r: nat,
                                         y: seq<byte>)
    requires SoFar(s, t, row, k, k) && VarSlotAt(t, Rank(t, k)) <= q <= r && q + |x| <= AllocSize(t)
    requires r + |y| <= AllocSize(t)
    ensures AllocSize(t) <= |s| && SoFar(Spliced(Spliced(s, q, x), r, y), t, row, k, k)
  {
    SoFarSlot(s, t, row, k, k, q, x);
    SoFarSlot(Spliced(s, q, x), t, row, k, k, r, y);
  }

  lemma {:induction false} VarStoresHold(s: seq<byte>, t: Table, row: Values, k: nat)
    requires RowOk(t, row) && RecordSize(t, row) <= |s| && k < |row| && t.kinds[k].Var? && row[k].Some?
    ensures Rank(t, k) < VarCount(t.kinds) && AllocSize(t) <= |s| &&
              ColumnsAt(t) + StartOf(t, row, k) + |row[k].value| <= |s|
    ensures var end, v := StartOf(t, row, k), row[k].value; var r := VarStores(s, t, k, v, end);
            && Holds(r, VarSlotAt(t, VarCount(t.kinds)), U32(end + |v|))
            && Holds(r, VarSlotAt(t, Rank(t, k)), U32(end)) && Holds(r, ColumnsAt(t) + end, v)
  {
    VarPlaces(t, row, k);
    var end, v := StartOf(t, row, k), row[k].value;
    ThreeStores(s, ColumnsAt(t) + end, v, VarSlotAt(t, Rank(t, k)), U32(end), VarSlotAt(t, VarCount(t.kinds)),
        U32(end + |v|));
  }

  lemma {:induction false} VarKeeps(s: seq<byte>, t: Table, row: Values, k: nat)
    requires Written(s, t, row, k) && k < |row| && t.kinds[k].Var? && row[k].Some?
    ensures Rank(t, k) < VarCount(t.kinds) && BITMAP_AT + k / 8 < |s|
    ensures AllocSize(t) <= |s| && ColumnsAt(t) + StartOf(t, row, k) + |row[k].value| <= |s|
    ensures Written(AfterVar(s, t, k, row[k].value, StartOf(t, row, k)), t, row, k + 1)
  {
    VarStoresKeep(s, t, row, k);
    VarStoresHold(s, t, row, k);
    BitInMap(|row|, k);
    var s3 := VarStores(s, t, k, row[k].value, StartOf(t, row, k));
    HeldNext(s3, t, row, k);
    MarkKeepsColumns(s3, t, row, k + 1, k, true);
    MarkNext(s3, row, k);
    MarkKeeps(s3, k, true, VarSlotAt(t, VarCount(t.kinds)), U32(StartOf(t, row, k) + |row[k].value|));
  }

  /** The end word is the start of the next value. */
  lemma {:induction false} EndOfWritten(s: seq<byte>, t: Table, row: Values, k: nat)
    requires Written(s, t, row, k)
    ensures VarSlotAt(t, VarCount(t.kinds)) + 4 <= |s| && EndWord(s, t) == StartOf(t, row, k)
  {
    LengthsRise(t, row, k, |row|);
    HeldWord(s, VarSlotAt(t, VarCount(t.kinds)), StartOf(t, row, k));
  }

  // ---------------------------------------------------------------- reading a record

  /** Where the value of column i begins, lines 463-471; None for a null column. */
  function ColumnPosition(s: seq<byte>, t: Table, columns: nat, varTable: nat, nullBitmap: nat, i: nat): Option<nat>
    requires i < |t.kinds| == |t.realIndex| && nullBitmap + i / 8 < |s|
    requires t.kinds[i].Fixed? ==> t.realIndex[i] < |t.offsets|
    requires t.kinds[i].Var? ==> varTable + 4 * t.realIndex[i] + 4 <= |s|
  {
    if !Bit(s[nullBitmap + i / 8], i % 8) then None
    else if t.kinds[i].Fixed? then Some(columns + t.offsets[t.realIndex[i]])
    else Some(columns + GetU32(s, varTable + 4 * t.realIndex[i]))
  }

  /** varColumnSize, lines 480-489: the distance to the next start, a 32-bit difference. */
  function VarColumnSize(s: seq<byte>, t: Table, varTable: nat, nullBitmap: nat, i: nat): nat
    requires i < |t.kinds| == |t.realIndex| && nullBitmap + i / 8 < |s| && varTable + 4 * (t.realIndex[i] + 2) <= |s|
  {
    if !Bit(s[nullBitmap + i / 8], i % 8) then 0
    else (GetU32(s, varTable + 4 * (t.realIndex[i] + 1)) - GetU32(s, varTable + 4 * t.realIndex[i])) % WORD32
  }

  /** The table entry that a column counting from j on finds next is the start of column j. */
  lemma {:induction false} NextStart(s: seq<byte>, t: Table, row: Values, j: nat)
    requires Written(s, t, row, |row|) && j <= |row|
    ensures Holds(s, VarSlotAt(t, Rank(t, j)), U32(StartOf(t, row, j)))
    decreases |row| - j
  {
    if j == |row| {
      assert t.kinds[..j] == t.kinds;
    } else if t.kinds[j].Var? {
      assert ColumnHeld(s, t, row, j);
    } else {
      NextStart(s, t, row, j + 1);
      Snoc(t.kinds, j);
    }
  }

  lemma {:induction false} StartFits(t: Table, row: Values, i: nat)
    requires RowOk(t, row) && i <= |row|
    ensures StartOf(t, row, i) < WORD32
  {
    LengthsRise(t, row, i, |row|);
  }

  /** The two starts around the value of column i. */
  lemma {:induction false} StartsOf(s: seq<byte>, t: Table, row: Values, i: nat)
    requires Written(s, t, row, |row|) && i < |row| && t.kinds[i].Var?
    ensures VarSlotAt(t, Rank(t, i)) + 8 <= |s|
    ensures GetU32(s, VarSlotAt(t, Rank(t, i))) == StartOf(t, row, i)
    ensures GetU32(s, VarSlotAt(t, Rank(t, i) + 1)) == StartOf(t, row, i + 1)
  {
    assert ColumnHeld(s, t, row, i);
    Snoc(t.kinds, i);
    NextStart(s, t, row, i + 1);
    StartFits(t, row, i);
    StartFits(t, row, i + 1);
    HeldWord(s, VarSlotAt(t, Rank(t, i)), StartOf(t, row, i));
    HeldWord(s, VarSlotAt(t, Rank(t, i + 1)), StartOf(t, row, i + 1));
  }

  /** The readers' own indexes are the ranks and offsets of the layout. */
  lemma {:induction false} IndexOf(t: Table, i: nat)
    requires Usable(t) && i < |t.kinds|
    ensures |t.realIndex| == |t.kinds|
    ensures t.kinds[i].Var? ==> t.realIndex[i] == Rank(t, i)
    ensures t.kinds[i].Fixed? ==>
              t.realIndex[i] < |t.offsets| && ColumnsAt(t) + t.offsets[t.realIndex[i]] == FieldAt(t, i)
    ensures t.kinds[i].Fixed? ==> FieldAt(t, i) + t.kinds[i].size <= VarTableAt(t)
  {
    assert Placed(t.kinds, t.realIndex, t.offsets, i);
    Snoc(t.kinds, i);
    Monotone(t.kinds, i + 1, |t.kinds|);
    assert t.kinds[..|t.kinds|] == t.kinds;
  }

  /** A value read at a position with a length. */
  ghost predicate ReadsAs(s: seq<byte>, position: Option<nat>, size: nat, value: Option<seq<byte>>) {
    match value
    case None => position == None
    case Some(v) => position.Some? && size == |v| && Holds(s, position.value, v)
  }

  /** Round trip of a fixed column: null exactly when it was set null, its bytes otherwise. */
  lemma {:induction false} FixedRoundTrip(s: seq<byte>, t: Table, row: Values, i: nat)
    requires Usable(t) && Written(s, t, row, |row|) && i < |row| && t.kinds[i].Fixed?
    ensures |t.realIndex| == |t.kinds| && t.realIndex[i] < |t.offsets| && BITMAP_AT + i / 8 < |s|
    ensures ReadsAs(s, ColumnPosition(s, t, ColumnsAt(t), VarTableAt(t), BITMAP_AT, i), t.kinds[i].size, row[i])
  {
    IndexOf(t, i);
    BitInMap(|row|, i);
    assert IsSet(s, i) <==> row[i].Some?;
    assert ColumnHeld(s, t, row, i) && ValueOk(t, row, i);
  }

  lemma {:induction false} VarSizeIs(s: seq<byte>, t: Table, row: Values, i: nat)
    requires Usable(t) && Written(s, t, row, |row|) && i < |row| && t.kinds[i].Var? && row[i].Some?
    ensures |t.realIndex| == |t.kinds| && VarTableAt(t) + 4 * (t.realIndex[i] + 2) <= |s|
    ensures var at := VarTableAt(t) + 4 * t.realIndex[i]; (GetU32(s, at + 4) - GetU32(s, at)) % WORD32 == |row[i].value|
    ensures GetU32(s, VarTableAt(t) + 4 * t.realIndex[i]) == StartOf(t, row, i)
  {
    IndexOf(t, i);
    StartsOf(s, t, row, i);
    StartFits(t, row, i + 1);
  }

  lemma {:induction false} VarValueIsRead(s: seq<byte>, t: Table, row: Values, i: nat)
    requires Usable(t) && Written(s, t, row, |row|) && i < |row| && t.kinds[i].Var? && row[i].Some?
    requires |t.realIndex| == |t.kinds| && BITMAP_AT + i / 8 < |s| && VarTableAt(t) + 4 * (t.realIndex[i] + 2) <= |s|
    requires IsSet(s, i)
    ensures ReadsAs(s, ColumnPosition(s, t, ColumnsAt(t), VarTableAt(t), BITMAP_AT, i),
                    VarColumnSize(s, t, VarTableAt(t), BITMAP_AT, i), row[i])
  {
    VarSizeIs(s, t, row, i);
    VarValueIsHeld(s, t, row, i);
    ReadBySlots(s, t, i, StartOf(t, row, i), row[i].value);
  }

  lemma {:induction false} VarValueIsHeld(s: seq<byte>, t: Table, row: Values, i: nat)
    requires Written(s, t, row, |row|) && i < |row| && t.kinds[i].Var? && row[i].Some?
    ensures Holds(s, ColumnsAt(t) + StartOf(t, row, i), row[i].value)
  {
    assert ColumnHeld(s, t, row, i);
  }

  lemma ReadBySlots(s: seq<byte>, t: Table, i: nat, start: nat, v: seq<byte>)
    requires i < |t.kinds| == |t.realIndex| && t.kinds[i].Var? && BITMAP_AT + i / 8 < |s|
    requires VarTableAt(t) + 4 * (t.realIndex[i] + 2) <= |s|
    requires IsSet(s, i) && GetU32(s, VarTableAt(t) + 4 * t.realIndex[i]) == start && Holds(s, ColumnsAt(t) + start, v)
    requires var at := VarTableAt(t) + 4 * t.realIndex[i]; (GetU32(s, at + 4) - GetU32(s, at)) % WORD32 == |v|
    ensures ReadsAs(s, ColumnPosition(s, t, ColumnsAt(t), VarTableAt(t), BITMAP_AT, i),
                    VarColumnSize(s, t, VarTableAt(t), BITMAP_AT, i), Some(v))
  {
  }

  lemma NullIsRead(s: seq<byte>, t: Table, i: nat)
    requires i < |t.kinds| == |t.realIndex| && t.kinds[i].Var? && BITMAP_AT + i / 8 < |s|
    requires VarTableAt(t) + 4 * (t.realIndex[i] + 2) <= |s|
    requires !IsSet(s, i)
    ensures ColumnPosition(s, t, ColumnsAt(t), VarTableAt(t), BITMAP_AT, i) == None
    ensures VarColumnSize(s, t, VarTableAt(t), BITMAP_AT, i) == 0
  {
  }

  /** Round trip of a column of variable length: its bytes and their number. */
  lemma {:induction false} VarRoundTrip(s: seq<byte>, t: Table, row: Values, i: nat)
    requires Usable(t) && Written(s, t, row, |row|) && i < |row| && t.kinds[i].Var?
    ensures |t.realIndex| == |t.kinds| && BITMAP_AT + i / 8 < |s| && VarTableAt(t) + 4 * (t.realIndex[i] + 2) <= |s|
    ensures ReadsAs(s, ColumnPosition(s, t, ColumnsAt(t), VarTableAt(t), BITMAP_AT, i),
                    VarColumnSize(s, t, VarTableAt(t), BITMAP_AT, i), row[i])
    ensures row[i].None? ==> VarColumnSize(s, t, VarTableAt(t), BITMAP_AT, i) == 0
  {
    BitInMap(|row|, i);
    assert IsSet(s, i) <==> row[i].Some?;
    SlotsInside(s, t, row, i);
    if row[i].Some? {
      VarValueIsRead(s, t, row, i);
    } else {
      NullIsRead(s, t, i);
    }
  }

  lemma {:induction false} SlotsInside(s: seq<byte>, t: Table, row: Values, i: nat)
    requires Usable(t) && Written(s, t, row, |row|) && i < |row| && t.kinds[i].Var?
    ensures |t.realIndex| == |t.kinds| && VarTableAt(t) + 4 * (t.realIndex[i] + 2) <= |s|
  {
    IndexOf(t, i);
    StartsOf(s, t, row, i);
  }

  /** Fields of different columns do not overlap, and all of them lie before the table of starts. */
  lemma {:induction false} FieldsAreDisjoint(t: Table, i: nat, j: nat)
    requires Usable(t) && i < j < |t.kinds| && t.kinds[i].Fixed? && t.kinds[j].Fixed?
    ensures FieldAt(t, i) + t.kinds[i].size <= FieldAt(t, j) && FieldAt(t, j) + t.kinds[j].size <= VarTableAt(t)
  {
    Snoc(t.kinds, i);
    Monotone(t.kinds, i + 1, j);
    IndexOf(t, j);
  }

  /** By the offsets that were built, the field of column i ends before the table of starts. */
  ghost predicate FieldFits(t: Table, i: nat)
    requires TableOk(t) && i < |t.kinds|
  {
    t.kinds[i].Fixed? ==>
      assert Placed(t.kinds, t.realIndex, t.offsets, i);
      t.offsets[t.realIndex[i]] + t.kinds[i].size <= t.offsets[t.fixedCount]
  }

  /** The column whose field reaches the 16-bit limit. */
  lemma {:induction false} CrossingColumn(kinds: seq<Kind>, n: nat) returns (i: nat)
    requires n <= |kinds| && WORD16 <= FixedBytes(kinds[..n])
    ensures i < n && kinds[i].Fixed? && FixedBytes(kinds[..i]) < WORD16 <= FixedBytes(kinds[..i]) + kinds[i].size
  {
    Snoc(kinds, n - 1);
    i := n - 1;
    if WORD16 <= FixedBytes(kinds[..n - 1]) {
      i := CrossingColumn(kinds, n - 1);
    }
  }

  /**
    The built offsets keep every fixed field before the table of starts if and only if the fields take less
    than 2^16 bytes.
   */
  lemma {:induction false} OffsetsAreUsable(t: Table)
    requires TableOk(t)
    ensures (forall i: nat {:trigger FieldFits(t, i)} | i < |t.kinds| :: FieldFits(t, i)) <==> Usable(t)
  {
    assert t.kinds[..|t.kinds|] == t.kinds;
    if Usable(t) {
      forall i: nat | i < |t.kinds| ensures FieldFits(t, i) {
        assert Placed(t.kinds, t.realIndex, t.offsets, i);
        Snoc(t.kinds, i);
        Monotone(t.kinds, i + 1, |t.kinds|);
      }
    } else {
      var i := CrossingColumn(t.kinds, |t.kinds|);
      assert Placed(t.kinds, t.realIndex, t.offsets, i);
      assert !FieldFits(t, i);
    }
  }

  // ---------------------------------------------------------------- the record object

  /** An empty record: no bit set, the end word at the first byte behind the table. */
  lemma {:induction false} EmptyRecord(s: seq<byte>, t: Table, row: Values)
    requires RowOk(t, row) && RecordSize(t, row) <= |s| && s[5] == HEAD_SIZE
    requires Holds(s, BITMAP_AT, Zeros(BitmapSize(|t.kinds|)))
    requires Holds(s, VarSlotAt(t, VarCount(t.kinds)), U32(VarBase(t)))
    ensures Written(s, t, row, 0)
  {
    forall i: nat | i < |row| ensures BITMAP_AT + i / 8 < |s| && !IsSet(s, i) {
      BitInMap(|row|, i);
      assert Zeros(BitmapSize(|row|))[i / 8] == s[BITMAP_AT..BITMAP_AT + BitmapSize(|row|)][i / 8] == 0;
      NoBits(i % 8);
    }
  }

  method StoreTwo(data: array<byte>, p: nat, a: seq<byte>, q: nat, b: seq<byte>)
    requires p + |a| <= q && q + |b| <= data.Length
    modifies data
    ensures Holds(data[..], p, a) && Holds(data[..], q, b)
    ensures forall i | 0 <= i < p :: data[i] == old(data[i])
    ensures p >= BITMAP_AT ==> Front(data[..]) == Front(old(data[..]))
  {
    if p >= BITMAP_AT {
      SplicedFront(data[..], p, a);
      SplicedFront(Spliced(data[..], p, a), q, b);
    }
    HoldsSpliced(data[..], p, a, 0, []);
    Put(data, p, a);
    HoldsSpliced(data[..], q, b, p, a);
    Put(data, q, b);
  }

  method MarkBit(data: array<byte>, i: nat, on: bool)
    requires BITMAP_AT + i / 8 < data.Length
    modifies data
    ensures data[..] == Marked(old(data[..]), i, on)
  {
    var p := BITMAP_AT + i / 8;
    Put(data, p, [if on then SetBit(data[p], i % 8) else ClearBit(data[p], i % 8)]);
  }

  method StoreFixed(data: array<byte>, ghost t: Table, i: nat, at: nat, v: seq<byte>)
    requires i < |t.kinds| && at == FieldAt(t, i) && at + |v| <= data.Length && BITMAP_AT + i / 8 < data.Length
    modifies data
    ensures data[..] == AfterFixed(old(data[..]), t, i, v)
  {
    Put(data, at, v);
    MarkBit(data, i, true);
  }

  method StoreFixedNull(data: array<byte>, ghost t: Table, i: nat, at: nat, zeros: seq<byte>)
    requires i < |t.kinds| && at == FieldAt(t, i) && at + |zeros| <= data.Length && BITMAP_AT + i / 8 < data.Length
    modifies data
    ensures data[..] == AfterFixedNull(old(data[..]), t, i, zeros)
  {
    MarkBit(data, i, false);
    Put(data, at, zeros);
  }

  method StoreThree(data: array<byte>, p: nat, v: seq<byte>, q: nat, x: seq<byte>, r: nat, y: seq<byte>)
    requires p + |v| <= data.Length && q + |x| <= data.Length && r + |y| <= data.Length
    modifies data
    ensures data[..] == Spliced(Spliced(Spliced(old(data[..]), p, v), q, x), r, y)
  {
    Put(data, p, v);
    Put(data, q, x);
    Put(data, r, y);
  }

  method LoadWord(data: array<byte>, at: nat) returns (n: nat)
    requires at + 4 <= data.Length
    ensures n == GetU32(data[..], at)
  {
    n := GetU32(data[..], at);
  }

  method StoreVarParts(data: array<byte>, ghost t: Table, ghost i: nat, at: nat, v: seq<byte>, slot: nat, endSlot: nat,
                       end: nat)
    requires i < |t.kinds| && AllocSize(t) <= data.Length && Rank(t, i) < VarCount(t.kinds)
    requires at == ColumnsAt(t) + end && at + |v| <= data.Length
    requires slot == VarSlotAt(t, Rank(t, i)) && endSlot == VarSlotAt(t, VarCount(t.kinds))
    modifies data
    ensures data[..] == VarStores(old(data[..]), t, i, v, end)
  {
    StoreThree(data, at, v, slot, U32(end), endSlot, U32(end + |v|));
  }

  method StoreVar(data: array<byte>, ghost t: Table, i: nat, at: nat, v: seq<byte>, slot: nat, endSlot: nat, end: nat)
    requires i < |t.kinds| && AllocSize(t) <= data.Length && Rank(t, i) < VarCount(t.kinds)
    requires BITMAP_AT + i / 8 < data.Length
    requires at == ColumnsAt(t) + end && at + |v| <= data.Length
    requires slot == VarSlotAt(t, Rank(t, i)) && endSlot == VarSlotAt(t, VarCount(t.kinds))
    modifies data
    ensures data[..] == AfterVar(old(data[..]), t, i, v, end)
  {
    StoreVarParts(data, t, i, at, v, slot, endSlot, end);
    MarkBit(data, i, true);
  }

  method StoreVarNull(data: array<byte>, ghost t: Table, i: nat, slot: nat, end: nat)
    requires i < |t.kinds| && AllocSize(t) <= data.Length && Rank(t, i) < VarCount(t.kinds)
    requires BITMAP_AT + i / 8 < data.Length
    requires slot == VarSlotAt(t, Rank(t, i))
    modifies data
    ensures data[..] == AfterVarNull(old(data[..]), t, i, end)
  {
    MarkBit(data, i, false);
    Put(data, slot, U32(end));
  }

  /** Where initRecord finds its parts. */
  lemma {:induction false} InitPlaces(t: Table)
    requires Usable(t)
    ensures t.fixedCount < |t.offsets| && ColumnsAt(t) + t.offsets[t.fixedCount] == VarTableAt(t)
    ensures t.varCount == VarCount(t.kinds)
    ensures BITMAP_AT + BitmapSize(|t.kinds|) == ColumnsAt(t) <= VarTableAt(t)
    ensures VarSlotAt(t, VarCount(t.kinds)) + 4 == AllocSize(t)
  {
  }

  /** What the setters of a column of variable length find. */
  lemma {:induction false} VarTurn(s: seq<byte>, t: Table, row: Values, i: nat)
    requires Usable(t) && Written(s, t, row, i) && i < |row| && t.kinds[i].Var?
    ensures |t.realIndex| == |t.kinds| && VarTableAt(t) + 4 * t.realIndex[i] == VarSlotAt(t, Rank(t, i))
    ensures VarTableAt(t) + 4 * t.varCount == VarSlotAt(t, VarCount(t.kinds))
    ensures VarTableAt(t) + 4 * t.varCount + 4 <= |s|
    ensures GetU32(s, VarTableAt(t) + 4 * t.varCount) == StartOf(t, row, i)
  {
    EndOfWritten(s, t, row, i);
    IndexOf(t, i);
    InitPlaces(t);
  }

  lemma {:induction false} FinishTurn(s: seq<byte>, t: Table, row: Values)
    requires Usable(t) && Written(s, t, row, |row|)
    ensures VarTableAt(t) + 4 * t.varCount + 4 <= |s|
    ensures ColumnsAt(t) + GetU32(s, VarTableAt(t) + 4 * t.varCount) == RecordSize(t, row)
  {
    EndOfWritten(s, t, row, |row|);
    InitPlaces(t);
  }

  /** externSize, headSize, type and version, then the id of the table's meta data. */
  method StoreHead(data: array<byte>, kind: byte, tableId: seq<byte>)
    requires |tableId| == TABLE_ID_SIZE && BITMAP_AT <= data.Length
    modifies data
    ensures data[5] == HEAD_SIZE && Front(data[..]) == ([0, HEAD_SIZE, kind, 1], tableId)
  {
    StoreTwo(data, 4, [0, HEAD_SIZE, kind, 1], HEAD_SIZE, tableId);
    assert data[..][4..8][1] == data[5];
  }

  /** The setters write behind the front. */
  lemma MarkedFront(s: seq<byte>, i: nat, on: bool)
    requires BITMAP_AT + i / 8 < |s|
    ensures Front(Marked(s, i, on)) == Front(s)
  {
    var p := BITMAP_AT + i / 8;
    SplicedFront(s, p, [if on then SetBit(s[p], i % 8) else ClearBit(s[p], i % 8)]);
  }

  lemma FixedFront(s: seq<byte>, t: Table, i: nat, v: seq<byte>)
    requires i < |t.kinds| && FieldAt(t, i) + |v| <= |s| && BITMAP_AT + i / 8 < |s|
    ensures Front(AfterFixed(s, t, i, v)) == Front(s) == Front(AfterFixedNull(s, t, i, v))
  {
    SplicedFront(s, FieldAt(t, i), v);
    MarkedFront(Spliced(s, FieldAt(t, i), v), i, true);
    MarkedFront(s, i, false);
    SplicedFront(Marked(s, i, false), FieldAt(t, i), v);
  }

  lemma VarFront(s: seq<byte>, t: Table, i: nat, v: seq<byte>, end: nat)
    requires i < |t.kinds| && AllocSize(t) <= |s| && Rank(t, i) < VarCount(t.kinds)
    requires ColumnsAt(t) + end + |v| <= |s| && BITMAP_AT + i / 8 < |s|
    ensures Front(AfterVar(s, t, i, v, end)) == Front(s)
  {
    var s1 := Spliced(s, ColumnsAt(t) + end, v);
    var s2 := Spliced(s1, VarSlotAt(t, Rank(t, i)), U32(end));
    SplicedFront(s, ColumnsAt(t) + end, v);
    SplicedFront(s1, VarSlotAt(t, Rank(t, i)), U32(end));
    SplicedFront(s2, VarSlotAt(t, VarCount(t.kinds)), U32(end + |v|));
    MarkedFront(VarStores(s, t, i, v, end), i, true);
  }

  lemma VarNullFront(s: seq<byte>, t: Table, i: nat, end: nat)
    requires i < |t.kinds| && AllocSize(t) <= |s| && Rank(t, i) < VarCount(t.kinds) && BITMAP_AT + i / 8 < |s|
    ensures Front(AfterVarNull(s, t, i, end)) == Front(s)
  {
    MarkedFront(s, i, false);
    SplicedFront(Marked(s, i, false), VarSlotAt(t, Rank(t, i)), U32(end));
  }

  /** The value goes where the end word points, its start becomes that place, the end word moves behind it. */
  method AddVar(data: array<byte>, t: Table, columns: nat, varTable: nat, i: nat, v: seq<byte>, ghost row: Values)
    requires Usable(t) && columns == ColumnsAt(t) && varTable == VarTableAt(t)
    requires Written(data[..], t, row, i) && i < |row| && t.kinds[i].Var? && row[i] == Some(v)
    modifies data
    ensures AllocSize(t) <= data.Length && Rank(t, i) < VarCount(t.kinds) && BITMAP_AT + i / 8 < data.Length
    ensures ColumnsAt(t) + StartOf(t, row, i) + |v| <= data.Length
    ensures data[..] == AfterVar(old(data[..]), t, i, v, StartOf(t, row, i))
  {
    VarTurn(data[..], t, row, i);
    VarPlaces(t, row, i);
    var endSlot := varTable + 4 * t.varCount;
    var end := LoadWord(data, endSlot);
    StoreVar(data, t, i, columns + end, v, varTable + 4 * t.realIndex[i], endSlot, end);
  }

  /** The start of a null column is the end word, which stays. */
  method AddVarNull(data: array<byte>, t: Table, varTable: nat, i: nat, ghost row: Values)
    requires Usable(t) && varTable == VarTableAt(t)
    requires Written(data[..], t, row, i) && i < |row| && t.kinds[i].Var? && row[i] == None
    modifies data
    ensures AllocSize(t) <= data.Length && Rank(t, i) < VarCount(t.kinds) && BITMAP_AT + i / 8 < data.Length
    ensures data[..] == AfterVarNull(old(data[..]), t, i, StartOf(t, row, i))
  {
    VarTurn(data[..], t, row, i);
    VarPlaces(t, row, i);
    var end := LoadWord(data, varTable + 4 * t.varCount);
    StoreVarNull(data, t, i, varTable + 4 * t.realIndex[i], end);
  }

  /** No bit is set, and the values of variable length begin behind the table of starts. */
  method StoreEmpty(data: array<byte>, t: Table, bitmap: nat, endSlot: nat, end: nat, ghost row: Values)
    requires Usable(t) && RowOk(t, row) && RecordSize(t, row) <= data.Length && data[5] == HEAD_SIZE
    requires bitmap == BITMAP_AT && endSlot == VarSlotAt(t, VarCount(t.kinds)) && end == VarBase(t)
    modifies data
    ensures Written(data[..], t, row, 0) && Front(data[..]) == Front(old(data[..]))
  {
    InitPlaces(t);
    StoreTwo(data, bitmap, Zeros(BitmapSize(|t.kinds|)), endSlot, U32(end));
    EmptyRecord(data[..], t, row);
  }

  class Record {
    var data: array<byte>
    var table: Table
    var nullBitmap: nat
    var columns: nat
    var varTable: nat
    var tableId: seq<byte>

    /** The first k columns of the row have been set. */
    ghost predicate Ready(row: Values, k: nat)
      reads this, data
    {
      Pointers() && Written(data[..], table, row, k) && Front(data[..]).1 == tableId
    }

    /** The bytes of the head that tell extern size, head size, type and version. */
    ghost function Kind(): seq<byte>
      reads this, data
    {
      Front(data[..]).0
    }

    ghost predicate Pointers()
      reads this
    {
      Usable(table) && nullBitmap == BITMAP_AT && columns == ColumnsAt(table) && varTable == VarTableAt(table)
    }

    constructor (buffer: array<byte>, t: Table)
      ensures data == buffer && table == t
    {
      data, table, nullBitmap, columns, varTable, tableId := buffer, t, 0, 0, 0, [];
    }

    /** initRecord, lines 272-293, and record::init. */
    method InitRecord(kind: byte, id: seq<byte>, ghost row: Values)
      requires Usable(table) && |id| == TABLE_ID_SIZE && RowOk(table, row) && RecordSize(table, row) <= data.Length
      modifies this`nullBitmap, this`columns, this`varTable, this`tableId, data
      ensures Ready(row, 0) && tableId == id && Kind() == [0, HEAD_SIZE, kind, 1]
    {
      InitPlaces(table);
      tableId := id;
      nullBitmap := HEAD_SIZE + TABLE_ID_SIZE;
      columns := nullBitmap + BitmapSize(|table.kinds|);
      varTable := columns + table.offsets[table.fixedCount];
      var end := varTable + 4 * (table.varCount + 1) - columns;
      StoreHead(data, kind, id);
      StoreEmpty(data, table, nullBitmap, varTable + 4 * table.varCount, end, row);
    }

    /** setFixedColumn. */
    method SetFixedColumn(i: nat, v: seq<byte>, ghost row: Values)
      requires Ready(row, i) && i < |row| && table.kinds[i].Fixed? && row[i] == Some(v)
      modifies data
      ensures Ready(row, i + 1) && Kind() == old(Kind())
    {
      FixedKeeps(data[..], table, row, i);
      FixedFront(data[..], table, i, v);
      IndexOf(table, i);
      StoreFixed(data, table, i, columns + table.offsets[table.realIndex[i]], v);
    }

    /** setFixedColumnNull. */
    method SetFixedColumnNull(i: nat, ghost row: Values)
      requires Ready(row, i) && i < |row| && table.kinds[i].Fixed? && row[i] == None
      modifies data
      ensures Ready(row, i + 1) && Kind() == old(Kind())
    {
      var zeros := Zeros(table.kinds[i].size);
      FixedNullKeeps(data[..], table, row, i, zeros);
      FixedFront(data[..], table, i, zeros);
      IndexOf(table, i);
      StoreFixedNull(data, table, i, columns + table.offsets[table.realIndex[i]], zeros);
    }

    /** setVarColumn. */
    method SetVarColumn(i: nat, v: seq<byte>, ghost row: Values)
      requires Ready(row, i) && i < |row| && table.kinds[i].Var? && row[i] == Some(v)
      modifies data
      ensures Ready(row, i + 1) && Kind() == old(Kind())
    {
      VarKeeps(data[..], table, row, i);
      VarFront(data[..], table, i, v, StartOf(table, row, i));
      AddVar(data, table, columns, varTable, i, v, row);
    }

    /** setVarColumnNull. */
    method SetVarColumnNull(i: nat, ghost row: Values)
      requires Ready(row, i) && i < |row| && table.kinds[i].Var? && row[i] == None
      modifies data
      ensures Ready(row, i + 1) && Kind() == old(Kind())
    {
      VarNullKeeps(data[..], table, row, i);
      VarNullFront(data[..], table, i, StartOf(table, row, i));
      AddVarNull(data, table, varTable, i, row);
    }

    /**
      finishedSet, lines 398-404: the size of the whole record, the allocated part plus all values of variable
      length.
     */
    method FinishedSet(ghost row: Values)
      requires Ready(row, |row|)
      modifies data
      ensures Ready(row, |row|) && Kind() == old(Kind()) && Holds(data[..], 0, U32(RecordSize(table, row)))
    {
      FinishTurn(data[..], table, row);
      var end := LoadWord(data, varTable + 4 * table.varCount);
      var size := U32(columns + end);
      HeadStoreKeeps(data[..], table, row, size);
      SplicedFront(data[..], 0, size);
      Put(data, 0, size);
    }

    /** load, lines 416-436: the pointers into a record of a known table. */
    method Load(ghost row: Values)
      requires Usable(table) && Written(data[..], table, row, |row|)
      modifies this`nullBitmap, this`columns, this`varTable, this`tableId
      ensures Ready(row, |row|)
    {
      InitPlaces(table);
      tableId := data[data[5]..data[5] + TABLE_ID_SIZE];
      nullBitmap := data[5] + TABLE_ID_SIZE;
      columns := nullBitmap + BitmapSize(|table.kinds|);
      varTable := columns + table.offsets[table.fixedCount];
    }

    /** column and varColumnSize on a complete record give back the row. */
    method Column(i: nat, ghost row: Values) returns (position: Option<nat>, size: nat)
      requires Ready(row, |row|) && i < |row|
      ensures ReadsAs(data[..], position, size, row[i])
    {
      if table.kinds[i].Fixed? {
        FixedRoundTrip(data[..], table, row, i);
        position, size := ColumnPosition(data[..], table, columns, varTable, nullBitmap, i), table.kinds[i].size;
      } else {
        VarRoundTrip(data[..], table, row, i);
        position := ColumnPosition(data[..], table, columns, varTable, nullBitmap, i);
        size := VarColumnSize(data[..], table, varTable, nullBitmap, i);
      }
    }

    /** A whole row, column by column in order. */
    method WriteRow(kind: byte, id: seq<byte>, row: Values)
      requires Usable(table) && |id| == TABLE_ID_SIZE && RowOk(table, row) && RecordSize(table, row) <= data.Length
      modifies this`nullBitmap, this`columns, this`varTable, this`tableId, data
      ensures Ready(row, |row|) && Holds(data[..], 0, U32(RecordSize(table, row)))
      ensures tableId == id && Kind() == [0, HEAD_SIZE, kind, 1]
    {
      InitRecord(kind, id, row);
      for i := 0 to |row|
        invariant Ready(row, i) && tableId == id && Kind() == [0, HEAD_SIZE, kind, 1]
      {
        SetColumn(i, row[i], row);
      }
      FinishedSet(row);
    }

    /** The setter that fits the column. */
    method SetColumn(i: nat, value: Option<seq<byte>>, ghost row: Values)
      requires Ready(row, i) && i < |row| && row[i] == value
      modifies data
      ensures Ready(row, i + 1) && Kind() == old(Kind())
    {
      match (table.kinds[i], value)
      case (Fixed(_), Some(v)) => SetFixedColumn(i, v, row);
      case (Fixed(_), None) => SetFixedColumnNull(i, row);
      case (Var, Some(v)) => SetVarColumn(i, v, row);
      case (Var, None) => SetVarColumnNull(i, row);
    }
  }

  /** Storing the size in the head leaves the columns alone. */
  lemma {:induction false} HeadStoreKeeps(s: seq<byte>, t: Table, row: Values, b: seq<byte>)
    requires Written(s, t, row, |row|) && |b| == 4
    ensures Written(Spliced(s, 0, b), t, row, |row|) && Holds(Spliced(s, 0, b), 0, b)
  {
    var s' := Spliced(s, 0, b);
    ColumnsSpliced(s, t, row, |row|, 0, b);
    HoldsSpliced(s, 0, b, VarSlotAt(t, VarCount(t.kinds)), U32(StartOf(t, row, |row|)));
    forall i: nat | i < |row| ensures BITMAP_AT + i / 8 < |s'| && (IsSet(s', i) <==> row[i].Some?) {
      BitInMap(|row|, i);
      assert IsSet(s, i) <==> row[i].Some?;
    }
  }
}
