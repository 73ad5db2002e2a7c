/**
  The order of index keys (meta/columnType.cpp): binaryType::compare on byte strings, the numeric order
  of single-column keys, and unionKey::compare on keys made of several columns. Keys are byte strings as
  they lie in memory; a multi-column key is taken without its leading length.
 */
module KeyOrder {
  import opened Bytes

  type Key = seq<byte>

  // ---------------------------------------------------------------- byte strings

  /** memcmp on two strings of the same length. */
  function MemCmp(a: Key, b: Key): int
    requires |a| == |b|
  {
    if a == [] then 0 else if a[0] != b[0] then a[0] - b[0] else MemCmp(a[1..], b[1..])
  }

  /** binaryType::compare, lines 24-42. */
  function BinaryCompare(a: Key, b: Key): int {
    if |a| == |b| then MemCmp(a, b)
    else if |a| < |b| then if MemCmp(a, b[..|a|]) > 0 then 1 else -1
    else if MemCmp(a[..|b|], b) >= 0 then 1 else -1
  }

  /** Lexicographic order: the first difference decides, and a proper prefix comes first. */
  ghost predicate Before(a: Key, b: Key) {
    exists n: nat :: DiffersAt(a, b, n)
  }

  ghost predicate DiffersAt(a: Key, b: Key, n: nat) {
    && n <= |a| && n < |b| && a[..n] == b[..n]
    && (n < |a| ==> a[n] < b[n])
  }

  /** memcmp is zero on equal strings and otherwise has the sign of the first difference. */
  lemma {:induction false} MemCmpIsFirstDifference(a: Key, b: Key) returns (n: nat)
    requires |a| == |b|
    ensures n <= |a| && a[..n] == b[..n]
    ensures n == |a| ==> MemCmp(a, b) == 0
    ensures n < |a| ==> a[n] != b[n] && MemCmp(a, b) == a[n] as int - b[n] as int
  {
    if a == [] || a[0] != b[0] {
      n := 0;
    } else {
      var m := MemCmpIsFirstDifference(a[1..], b[1..]);
      n := m + 1;
      assert a[..n] == [a[0]] + a[1..][..m] && b[..n] == [b[0]] + b[1..][..m];
    }
  }

  lemma NotBefore(a: Key, b: Key, n: nat)
    requires DiffersAt(a, b, n)
    ensures !Before(b, a) && a != b
  {
    forall m: nat ensures !DiffersAt(b, a, m) {
      if m < n {
        assert a[..n][m] == b[..n][m];
      }
    }
  }

  /** binaryType::compare is the lexicographic order. */
  lemma BinaryCompareIsLexicographic(a: Key, b: Key)
    ensures BinaryCompare(a, b) < 0 <==> Before(a, b)
    ensures BinaryCompare(a, b) > 0 <==> Before(b, a)
    ensures BinaryCompare(a, b) == 0 <==> a == b
  {
    var k := if |a| < |b| then |a| else |b|;
    var n := MemCmpIsFirstDifference(a[..k], b[..k]);
    assert a[..k][..n] == a[..n] && b[..k][..n] == b[..n];
    assert a[..|a|] == a && b[..|b|] == b;
    if n < k {
      assert a[..k][n] == a[n] && b[..k][n] == b[n];
    }
    if n == |a| == |b| {
      Irreflexive(a);
    } else if (n < k && a[n] < b[n]) || (n == k && |a| < |b|) {
      assert DiffersAt(a, b, n);
      NotBefore(a, b, n);
    } else {
      assert DiffersAt(b, a, n);
      NotBefore(b, a, n);
    }
  }

  lemma Irreflexive(a: Key)
    ensures !Before(a, a)
  {
  }

  lemma BeforeIsTransitive(a: Key, b: Key, c: Key)
    requires Before(a, b) && Before(b, c)
    ensures Before(a, c)
  {
    var m: nat :| DiffersAt(a, b, m);
    var n: nat :| DiffersAt(b, c, n);
    var k := if m < n then m else n;
    assert a[..k] == a[..m][..k] && b[..k] == b[..m][..k] && b[..k] == b[..n][..k] && c[..k] == c[..n][..k];
    if m < n {
      assert b[..n][m] == c[..n][m];
    } else if n < m {
      assert a[..m][n] == b[..m][n];
    }
    assert DiffersAt(a, c, k);
  }

  // ---------------------------------------------------------------- columns

  datatype ColumnType = UInt8 | Int8 | UInt16 | Int16 | UInt32 | Int32 | UInt64 | Int64 | Str

  function Width(t: ColumnType): nat {
    match t
    case UInt8 => 1 case Int8 => 1
    case UInt16 => 2 case Int16 => 2
    case UInt32 => 4 case Int32 => 4
    case UInt64 => 8 case Int64 => 8
    case Str => 0
  }

  predicate Signed(t: ColumnType) { t.Int8? || t.Int16? || t.Int32? || t.Int64? }

  /** The number in a fixed-width column: little-endian, two's complement when the type is signed. */
  function Value(t: ColumnType, b: Key): int {
    var n := Number(b);
    if Signed(t) && 2 * n >= Pow256(|b|) then n - Pow256(|b|) else n
  }

  /** What converting a difference to a 32-bit int leaves of it. */
  function Narrow(d: int): int {
    var r := d % WORD32;
    if r >= WORD32 / 2 then r - WORD32 else r
  }

  /** The cases of unionKey::compare (lines 53-124) on one column. */
  function CompareColumn(t: ColumnType, a: Key, b: Key): int {
    if t.Str? then BinaryCompare(a, b)
    else
      var x, y := Value(t, a), Value(t, b);
      match t
      case UInt32 => Narrow(x - y)
      case Int32 => Narrow(x - y)
      case UInt64 => Sign(x - y)
      case Int64 => Sign(x - y)
      case _ => x - y
  }

  function Sign(d: int): int { if d > 0 then 1 else if d < 0 then -1 else 0 }

  /** What a column may hold: its width in bytes, or any string whose length fits 16 bits. */
  predicate ColumnOk(t: ColumnType, b: Key) {
    if t.Str? then |b| < WORD16 else |b| == Width(t)
  }

  /** A strict order that is decided for every pair of different elements. */
  ghost predicate OrderLaws(ab: int, ba: int, equal: bool) {
    && (ab == 0 <==> equal)
    && (ab < 0 <==> ba > 0)
    && (ab > 0 <==> ba < 0)
  }

  lemma ValueIsInjective(t: ColumnType, a: Key, b: Key)
    requires |a| == |b| && Value(t, a) == Value(t, b)
    ensures a == b
  {
    LittleEndianOfNumber(a);
    LittleEndianOfNumber(b);
    assert Number(a) == Number(b);
  }

  /** The numbers that a column of each type can hold. */
  predicate InRange(t: ColumnType, v: int) {
    match t
    case UInt8 => 0 <= v < 0x100
    case Int8 => -0x80 <= v < 0x80
    case UInt16 => 0 <= v < 0x1_0000
    case Int16 => -0x8000 <= v < 0x8000
    case UInt32 => 0 <= v < 0x1_0000_0000
    case Int32 => -0x8000_0000 <= v < 0x8000_0000
    case UInt64 => 0 <= v < 0x1_0000_0000_0000_0000
    case Int64 => -0x8000_0000_0000_0000 <= v < 0x8000_0000_0000_0000
    case Str => true
  }

  /**
    The value of a column is the number of its type that has the same bytes: they differ by a multiple of its
    range.
   */
  lemma ValueIsNumber(t: ColumnType, b: Key)
    requires ColumnOk(t, b) && !t.Str?
    ensures InRange(t, Value(t, b))
    ensures Value(t, b) == Number(b) || Value(t, b) == Number(b) - Pow256(|b|)
  {
    LittleEndianOfNumber(b);
    WordRange();
  }

  /** Every number of the range is the value of some column of the type. */
  lemma NumberHasBytes(t: ColumnType, v: int) returns (b: Key)
    requires !t.Str? && InRange(t, v)
    ensures ColumnOk(t, b) && Value(t, b) == v
  {
    WordRange();
    var n: nat := if v < 0 then v + Pow256(Width(t)) else v;
    NumberOfLittleEndian(n, Width(t));
    b := LittleEndian(n, Width(t));
  }

  /** Every column compares by value, the smaller number first, except that a 32-bit difference must fit an int. */
  lemma CompareIsNumeric(t: ColumnType, a: Key, b: Key)
    requires ColumnOk(t, a) && ColumnOk(t, b) && !t.Str?
    requires Is32(t) ==> -(WORD32 / 2) <= Value(t, a) - Value(t, b) < WORD32 / 2
    ensures CompareColumn(t, a, b) < 0 <==> Value(t, a) < Value(t, b)
    ensures CompareColumn(t, a, b) > 0 <==> Value(t, a) > Value(t, b)
  {
    if Is32(t) {
      NarrowFits(Value(t, a) - Value(t, b));
    }
  }

  predicate Is32(t: ColumnType) { t.UInt32? || t.Int32? }

  /** A 32-bit value in the half of the number range that starts at `low`; other columns may hold anything. */
  predicate InWindow(t: ColumnType, low: int, v: Key) {
    Is32(t) ==> low <= Value(t, v) < low + WORD32 / 2
  }

  /** All differences of some values fit an int if and only if the values lie in one half of the number range. */
  lemma {:induction false} DifferencesFit(t: ColumnType, vs: seq<Key>)
    requires Is32(t)
    ensures (forall i, j | 0 <= i < |vs| && 0 <= j < |vs| ::
              -(WORD32 / 2) <= Value(t, vs[i]) - Value(t, vs[j]) < WORD32 / 2)
            <==> exists low {:trigger AllInWindow(t, low, vs)} :: AllInWindow(t, low, vs)
  {
    if vs == [] {
      assert AllInWindow(t, 0, vs);
    } else {
      var k := Lowest(t, vs);
      var low := Value(t, vs[k]);
      if forall i, j | 0 <= i < |vs| && 0 <= j < |vs| ::
          -(WORD32 / 2) <= Value(t, vs[i]) - Value(t, vs[j]) < WORD32 / 2 {
        forall i | 0 <= i < |vs| ensures InWindow(t, low, vs[i]) {
          assert Value(t, vs[i]) - Value(t, vs[k]) < WORD32 / 2;
        }
        assert AllInWindow(t, low, vs);
      }
    }
  }

  ghost predicate AllInWindow(t: ColumnType, low: int, vs: seq<Key>) {
    forall i | 0 <= i < |vs| :: InWindow(t, low, vs[i])
  }

  lemma {:induction false} Lowest(t: ColumnType, vs: seq<Key>) returns (k: nat)
    requires vs != []
    ensures k < |vs| && forall i | 0 <= i < |vs| :: Value(t, vs[k]) <= Value(t, vs[i])
    decreases |vs|
  {
    var n := |vs| - 1;
    k := n;
    if n > 0 {
      k := Lowest(t, vs[..n]);
      if Value(t, vs[n]) < Value(t, vs[k]) {
        k := n;
      }
    }
  }

  /** A column comparison is a total order on values whose differences fit an int. */
  lemma ColumnOrder(t: ColumnType, low: int, a: Key, b: Key)
    requires ColumnOk(t, a) && ColumnOk(t, b) && InWindow(t, low, a) && InWindow(t, low, b)
    ensures OrderLaws(CompareColumn(t, a, b), CompareColumn(t, b, a), a == b)
  {
    if t.Str? {
      BinaryCompareIsLexicographic(a, b);
      BinaryCompareIsLexicographic(b, a);
    } else {
      if Is32(t) {
        NarrowFits(Value(t, a) - Value(t, b));
        NarrowFits(Value(t, b) - Value(t, a));
      }
      if Value(t, a) == Value(t, b) {
        ValueIsInjective(t, a, b);
      }
    }
  }

  lemma NarrowFits(d: int)
    ensures Narrow(d) == d <==> -(WORD32 / 2) <= d < WORD32 / 2
  {
  }

  lemma ColumnTransitive(t: ColumnType, low: int, a: Key, b: Key, c: Key)
    requires InWindow(t, low, a) && InWindow(t, low, b) && InWindow(t, low, c)
    requires CompareColumn(t, a, b) < 0 && CompareColumn(t, b, c) < 0
    ensures CompareColumn(t, a, c) < 0
  {
    if t.Str? {
      BinaryCompareIsLexicographic(a, b);
      BinaryCompareIsLexicographic(b, c);
      BeforeIsTransitive(a, b, c);
      BinaryCompareIsLexicographic(a, c);
    }
  }

  lemma ValueRange(t: ColumnType, a: Key)
    requires (t.UInt32? || t.Int32?) && ColumnOk(t, a)
    ensures if t.UInt32? then 0 <= Value(t, a) < WORD32 else -(WORD32 / 2) <= Value(t, a) < WORD32 / 2
  {
    LittleEndianOfNumber(a);
    WordRange();
  }

  /** A 32-bit column comparison has the sign of the numeric difference exactly when that difference fits an int. */
  lemma Narrow32IsRight(t: ColumnType, a: Key, b: Key)
    requires (t.UInt32? || t.Int32?) && ColumnOk(t, a) && ColumnOk(t, b)
    ensures var d := Value(t, a) - Value(t, b);
            Sign(CompareColumn(t, a, b)) == Sign(d) <==> -(WORD32 / 2) <= d < WORD32 / 2
  {
    ValueRange(t, a);
    ValueRange(t, b);
  }

  /** Three 32-bit values that unionKey::compare puts in a circle. */
  lemma Narrow32IsNoOrder()
    ensures var a, b, c := U32(0), U32(0x6000_0000), U32(0xC000_0000);
            && ColumnOk(UInt32, a) && ColumnOk(UInt32, b) && ColumnOk(UInt32, c)
            && CompareColumn(UInt32, a, b) < 0 && CompareColumn(UInt32, b, c) < 0
            && CompareColumn(UInt32, c, a) < 0
  {
    StoredWord(0);
    StoredWord(0x6000_0000);
    StoredWord(0xC000_0000);
  }

  // ---------------------------------------------------------------- keys of several columns

  /** The bytes a column takes in a key: strings carry their length (lines 178-187). */
  function Stored(t: ColumnType, v: Key): Key { if t.Str? then U16(|v|) + v else v }

  function StoredSize(t: ColumnType, b: Key): nat {
    if t.Str? then (if |b| < 2 then 2 else 2 + GetU16(b, 0)) else Width(t)
  }

  function First(t: ColumnType, b: Key): Key
    requires StoredSize(t, b) <= |b|
  {
    b[if t.Str? then 2 else 0..StoredSize(t, b)]
  }

  /** The byte string is one column after the other. */
  predicate Parses(types: seq<ColumnType>, b: Key) {
    if types == [] then b == []
    else var n := StoredSize(types[0], b); n <= |b| && Parses(types[1..], b[n..])
  }

  lemma FirstColumn(t: ColumnType, b: Key)
    requires StoredSize(t, b) <= |b|
    ensures ColumnOk(t, First(t, b)) && b == Stored(t, First(t, b)) + b[StoredSize(t, b)..]
  {
    if t.Str? {
      LittleEndianOfNumber(b[0..2]);
      WordRange();
    }
  }

  lemma FirstOfStored(t: ColumnType, v: Key, rest: Key)
    requires ColumnOk(t, v)
    ensures var b := Stored(t, v) + rest;
            StoredSize(t, b) == |Stored(t, v)| && First(t, b) == v && b[StoredSize(t, b)..] == rest
  {
    if t.Str? {
      StoredWord(|v|);
      assert (Stored(t, v) + rest)[0..2] == U16(|v|);
    }
  }

  /** unionKey::compare: the first column that differs decides. */
  function UnionCompare(types: seq<ColumnType>, a: Key, b: Key): int
    requires Parses(types, a) && Parses(types, b)
  {
    if types == [] then 0
    else
      var t := types[0];
      var c := CompareColumn(t, First(t, a), First(t, b));
      if c != 0 then c else UnionCompare(types[1..], a[StoredSize(t, a)..], b[StoredSize(t, b)..])
  }

  /** Every 32-bit column of the key lies in the half of the number range that starts at its entry in `lows`. */
  predicate Windowed(types: seq<ColumnType>, lows: seq<int>, b: Key)
    requires Parses(types, b) && |lows| == |types|
  {
    types == [] || (InWindow(types[0], lows[0], First(types[0], b)) &&
        Windowed(types[1..], lows[1..], b[StoredSize(types[0], b)..]))
  }

  predicate Has32(types: seq<ColumnType>) { exists i :: 0 <= i < |types| && Is32(types[i]) }

  /** Without 32-bit columns every key will do. */
  lemma {:induction false} WindowedWithout32(types: seq<ColumnType>, lows: seq<int>, b: Key)
    requires Parses(types, b) && |lows| == |types| && !Has32(types)
    ensures Windowed(types, lows, b)
  {
    if types != [] {
      forall i | 0 <= i < |types[1..]| ensures !Is32(types[1..][i]) {
        assert !Is32(types[i + 1]);
      }
      assert !Is32(types[0]);
      WindowedWithout32(types[1..], lows[1..], b[StoredSize(types[0], b)..]);
    }
  }

  /**
    When the differences of 32-bit columns fit an int, unionKey::compare decides every pair, and is zero
    only on identical bytes.
   */
  lemma {:induction false} UnionOrder(types: seq<ColumnType>, lows: seq<int>, a: Key, b: Key)
    requires Parses(types, a) && Parses(types, b) && |lows| == |types| && Windowed(types, lows, a)
    requires Windowed(types, lows, b)
    ensures OrderLaws(UnionCompare(types, a, b), UnionCompare(types, b, a), a == b)
  {
    if types != [] {
      var t := types[0];
      FirstColumn(t, a);
      FirstColumn(t, b);
      ColumnOrder(t, lows[0], First(t, a), First(t, b));
      UnionOrder(types[1..], lows[1..], a[StoredSize(t, a)..], b[StoredSize(t, b)..]);
    }
  }

  lemma {:induction false} UnionTransitive(types: seq<ColumnType>, lows: seq<int>, a: Key, b: Key, c: Key)
    requires Parses(types, a) && Parses(types, b) && Parses(types, c) && |lows| == |types|
    requires Windowed(types, lows, a) && Windowed(types, lows, b) && Windowed(types, lows, c)
    requires UnionCompare(types, a, b) < 0 && UnionCompare(types, b, c) < 0
    ensures UnionCompare(types, a, c) < 0
  {
    if types != [] {
      var t := types[0];
      var x, y, z := First(t, a), First(t, b), First(t, c);
      FirstColumn(t, a);
      FirstColumn(t, b);
      FirstColumn(t, c);
      ColumnOrder(t, lows[0], x, y);
      ColumnOrder(t, lows[0], y, z);
      ColumnOrder(t, lows[0], x, z);
      if x == y && y == z {
        UnionTransitive(types[1..], lows[1..], a[StoredSize(t, a)..], b[StoredSize(t, b)..], c[StoredSize(t, c)..]);
      } else if x != y && y != z {
        ColumnTransitive(t, lows[0], x, y, z);
      }
    }
  }

  /** unionKey::compare with its two cursors; `skip` is the length of the leading size (lines 47-139). */
  method CompareUnionKeys(types: seq<ColumnType>, skip: nat, a: Key, b: Key) returns (c: int)
    requires skip <= |a| && skip <= |b| && Parses(types, a[skip..]) && Parses(types, b[skip..])
    ensures c == UnionCompare(types, a[skip..], b[skip..])
  {
    var p, q := skip, skip;
    for i := 0 to |types|
      invariant skip <= p <= |a| && skip <= q <= |b|
      invariant Parses(types[i..], a[p..]) && Parses(types[i..], b[q..])
      invariant UnionCompare(types, a[skip..], b[skip..]) == UnionCompare(types[i..], a[p..], b[q..])
    {
      var t := types[i];
      assert types[i..][0] == t && types[i..][1..] == types[i + 1..];
      var m, n := StoredSize(t, a[p..]), StoredSize(t, b[q..]);
      c := CompareColumn(t, First(t, a[p..]), First(t, b[q..]));
      if c != 0 {
        return;
      }
      assert a[p..][m..] == a[p + m..] && b[q..][n..] == b[q + n..];
      p, q := p + m, q + n;
    }
    c := 0;
  }

  // ---------------------------------------------------------------- building a key

  ghost predicate ColumnsOk(types: seq<ColumnType>, values: seq<Key>) {
    |types| == |values| && forall i | 0 <= i < |types| :: ColumnOk(types[i], values[i])
  }

  function AllStored(types: seq<ColumnType>, values: seq<Key>): Key
    requires |types| == |values|
  {
    if types == [] then [] else Stored(types[0], values[0]) + AllStored(types[1..], values[1..])
  }

  /** The column values found in a key. */
  function Columns(types: seq<ColumnType>, b: Key): (values: seq<Key>)
    requires Parses(types, b)
    ensures |values| == |types|
  {
    if types == [] then [] else [First(types[0], b)] + Columns(types[1..], b[StoredSize(types[0], b)..])
  }

  /** A key gives back the columns it was built from. */
  lemma {:induction false} ColumnsOfKey(types: seq<ColumnType>, values: seq<Key>)
    requires ColumnsOk(types, values)
    ensures Parses(types, AllStored(types, values)) && Columns(types, AllStored(types, values)) == values
  {
    if types != [] {
      var rest := AllStored(types[1..], values[1..]);
      ColumnsOfKey(types[1..], values[1..]);
      FirstOfStored(types[0], values[0], rest);
      assert values == [values[0]] + values[1..];
    }
  }

  /** Also a 32-bit column compares as zero only with itself. */
  lemma ColumnZero(t: ColumnType, a: Key, b: Key)
    requires ColumnOk(t, a) && ColumnOk(t, b)
    ensures CompareColumn(t, a, b) == 0 <==> a == b
  {
    if Is32(t) {
      ValueRange(t, a);
      ValueRange(t, b);
      if CompareColumn(t, a, b) == 0 {
        ValueIsInjective(t, a, b);
      }
    } else {
      ColumnOrder(t, 0, a, b);
    }
  }

  lemma {:induction false} UnionZero(types: seq<ColumnType>, a: Key, b: Key)
    requires Parses(types, a) && Parses(types, b)
    ensures UnionCompare(types, a, b) == 0 <==> a == b
  {
    if types != [] {
      var t := types[0];
      FirstColumn(t, a);
      FirstColumn(t, b);
      ColumnZero(t, First(t, a), First(t, b));
      UnionZero(types[1..], a[StoredSize(t, a)..], b[StoredSize(t, b)..]);
    }
  }

  /** The first column that differs decides how two keys compare. */
  lemma {:induction false} FirstDifferenceDecides(types: seq<ColumnType>, a: Key, b: Key, i: nat)
    requires Parses(types, a) && Parses(types, b) && i < |types|
    requires var x, y := Columns(types, a), Columns(types, b); x[..i] == y[..i] && x[i] != y[i]
    ensures UnionCompare(types, a, b) == CompareColumn(types[i], Columns(types, a)[i], Columns(types, b)[i])
  {
    var t, x, y := types[0], Columns(types, a), Columns(types, b);
    FirstColumn(t, a);
    FirstColumn(t, b);
    ColumnZero(t, First(t, a), First(t, b));
    if i > 0 {
      assert x[0] == x[..i][0] && y[0] == y[..i][0];
      assert x[1..][..i - 1] == x[..i][1..] && y[1..][..i - 1] == y[..i][1..];
      FirstDifferenceDecides(types[1..], a[StoredSize(t, a)..], b[StoredSize(t, b)..], i - 1);
    }
  }

  /** Two keys compare equal exactly when they were built from the same column values. */
  lemma EqualKeysHaveEqualColumns(types: seq<ColumnType>, u: seq<Key>, v: seq<Key>)
    requires ColumnsOk(types, u) && ColumnsOk(types, v)
    ensures Parses(types, AllStored(types, u)) && Parses(types, AllStored(types, v))
    ensures UnionCompare(types, AllStored(types, u), AllStored(types, v)) == 0 <==> u == v
  {
    ColumnsOfKey(types, u);
    ColumnsOfKey(types, v);
    UnionZero(types, AllStored(types, u), AllStored(types, v));
  }

  /** createUnionKey's size: two bytes for every string, the width of every other column (meta/metaData.cpp:337-355). */
  function BaseSize(types: seq<ColumnType>): nat {
    if types == [] then 0 else BaseSize(types[..|types| - 1]) + if types[|types| - 1].Str? then 2
        else Width(types[|types| - 1])
  }

  predicate AllFixed(types: seq<ColumnType>) { forall i | 0 <= i < |types| :: !types[i].Str? }

  lemma {:induction false} BaseSizeFirst(types: seq<ColumnType>)
    requires types != []
    ensures BaseSize(types) == (if types[0].Str? then 2 else Width(types[0])) + BaseSize(types[1..])
  {
    var n := |types| - 1;
    if n > 0 {
      BaseSizeFirst(types[..n]);
      assert types[..n][1..] == types[1..][..n - 1];
    } else {
      assert types[..0] == [] == types[1..];
    }
  }

  /** A key whose columns are all fixed is as long as the meta data says; any other is at least as long. */
  lemma {:induction false} LengthOfKey(types: seq<ColumnType>, k: Key)
    requires Parses(types, k)
    ensures BaseSize(types) <= |k| && (AllFixed(types) ==> |k| == BaseSize(types))
  {
    if types != [] {
      BaseSizeFirst(types);
      LengthOfKey(types[1..], k[StoredSize(types[0], k)..]);
    }
  }

  function VarSizes(types: seq<ColumnType>, values: seq<Key>): nat
    requires |types| == |values|
  {
    if types == [] then 0
    else var n := |types| - 1;
      VarSizes(types[..n], values[..n]) + if types[n].Str? then |values[n]| else 0
  }

  lemma {:induction false} AllStoredSnoc(types: seq<ColumnType>, values: seq<Key>, i: nat)
    requires |types| == |values| && i < |types|
    ensures AllStored(types[..i + 1], values[..i + 1]) ==
              AllStored(types[..i], values[..i]) + Stored(types[i], values[i])
  {
    if i == 0 {
      assert AllStored(types[..1][1..], values[..1][1..]) == [];
    } else {
      AllStoredSnoc(types[1..], values[1..], i - 1);
      assert types[..i + 1][1..] == types[1..][..i] && values[..i + 1][1..] == values[1..][..i];
      assert types[..i][1..] == types[1..][..i - 1] && values[..i][1..] == values[1..][..i - 1];
    }
  }

  /** memSize measures the key: base size plus the string lengths. */
  lemma {:induction false} StoredLength(types: seq<ColumnType>, values: seq<Key>)
    requires ColumnsOk(types, values)
    ensures |AllStored(types, values)| == BaseSize(types) + VarSizes(types, values)
  {
    if types != [] {
      var n := |types| - 1;
      StoredLength(types[..n], values[..n]);
      AllStoredSnoc(types, values, n);
      assert types[..n + 1] == types && values[..n + 1] == values;
    }
  }

  lemma VarSizesSnoc(types: seq<ColumnType>, values: seq<Key>, i: nat)
    requires |types| == |values| && i < |types|
    ensures VarSizes(types[..i + 1], values[..i + 1]) ==
            VarSizes(types[..i], values[..i]) + if types[i].Str? then |values[i]| else 0
  {
    assert types[..i + 1][..i] == types[..i] && values[..i + 1][..i] == values[..i];
  }

  lemma AddMod(a: nat, b: nat)
    ensures (a % WORD16 + b) % WORD16 == (a + b) % WORD16
  {
  }

  /** unionKey::memSize, lines 140-161: a 16-bit sum. */
  method MemSize(types: seq<ColumnType>, values: seq<Key>) returns (size: nat)
    requires ColumnsOk(types, values)
    ensures size == |AllStored(types, values)| % WORD16
  {
    size := BaseSize(types) % WORD16;
    for i := 0 to |types|
      invariant size == (BaseSize(types) + VarSizes(types[..i], values[..i])) % WORD16
    {
      VarSizesSnoc(types, values, i);
      if types[i].Str? {
        AddMod(BaseSize(types) + VarSizes(types[..i], values[..i]), |values[i]|);
        size := (size + |values[i]|) % WORD16;
      }
    }
    assert types[..|types|] == types && values[..|types|] == values;
    StoredLength(types, values);
  }

  /** unionKey::initKey, lines 162-209: the length first unless every column is fixed. */
  method InitKey(types: seq<ColumnType>, values: seq<Key>, size: nat) returns (key: Key)
    requires ColumnsOk(types, values)
    ensures key == (if AllFixed(types) then [] else U16(size)) + AllStored(types, values)
  {
    key := [];
    for i := 0 to |types|
      invariant key == AllStored(types[..i], values[..i])
    {
      AllStoredSnoc(types, values, i);
      key := key + Stored(types[i], values[i]);
    }
    assert types[..|types|] == types && values[..|types|] == values;
    if !AllFixed(types) {
      key := U16(size) + key;
    }
  }

  /** A key as it lies in memory: behind its 16-bit length unless every column is fixed. */
  function InMemory(types: seq<ColumnType>, k: Key): Key {
    if AllFixed(types) then k else U16(|k| % WORD16) + k
  }

  function Prefix(k: Key, n: nat): Key { if n <= |k| then k[..n] else k }

  /** unionKey::operator==, meta/columnType.h lines 241-253: it compares bytes and not columns. */
  predicate SameBytes(types: seq<ColumnType>, a: Key, b: Key) {
    if AllFixed(types) then Prefix(a, BaseSize(types)) == Prefix(b, BaseSize(types))
    else
      && 2 <= |a| && 2 <= |b| && GetU16(a, 0) == GetU16(b, 0)
      && Prefix(a[2..], GetU16(a, 0)) == Prefix(b[2..], GetU16(a, 0))
  }

  /** The length in front of a key, and the key behind it. */
  lemma PrefixedKey(k: Key)
    ensures var a := U16(|k| % WORD16) + k; GetU16(a, 0) == |k| % WORD16 && a[2..] == k
  {
    StoredWord(|k| % WORD16);
    assert (U16(|k| % WORD16) + k)[0..2] == U16(|k| % WORD16);
  }

  /** What operator== decides for keys of any length: the lengths and the bytes modulo 2^16. */
  lemma {:induction false} SameBytesIs(types: seq<ColumnType>, k: Key, l: Key)
    requires AllFixed(types) ==> |k| == BaseSize(types) == |l|
    ensures SameBytes(types, InMemory(types, k), InMemory(types, l)) <==>
              if AllFixed(types) then k == l
              else |k| % WORD16 == |l| % WORD16 && Prefix(k, |k| % WORD16) == Prefix(l, |l| % WORD16)
  {
    if AllFixed(types) {
      assert k[..|k|] == k && l[..|l|] == l;
    } else {
      PrefixedKey(k);
      PrefixedKey(l);
    }
  }

  lemma WholePrefix(k: Key)
    requires |k| < WORD16
    ensures |k| % WORD16 == |k| && Prefix(k, |k| % WORD16) == k
  {
    assert k[..|k|] == k;
  }

  /** On keys below 2^16 bytes operator== and compare agree, whatever the columns. */
  lemma {:induction false} SameBytesIsCompareZero(types: seq<ColumnType>, k: Key, l: Key)
    requires Parses(types, k) && Parses(types, l) && |k| < WORD16 && |l| < WORD16
    ensures SameBytes(types, InMemory(types, k), InMemory(types, l)) <==> UnionCompare(types, k, l) == 0
  {
    LengthOfKey(types, k);
    LengthOfKey(types, l);
    SameBytesIs(types, k, l);
    WholePrefix(k);
    WholePrefix(l);
    UnionZero(types, k, l);
  }

  // ---------------------------------------------------------------- index keys

  /** `lows` says where the values of the 32-bit columns of an index begin; their differences must fit an int. */
  datatype KeyType = Single(t: ColumnType) | Binary | Union(types: seq<ColumnType>, lows: seq<int>)

  predicate KeyOk(kt: KeyType, k: Key) {
    match kt
    case Single(t) => |k| == Width(t)
    case Binary => |k| < WORD16
    case Union(types, lows) => Parses(types, k) && |k| < WORD16 && |lows| == |types| && Windowed(types, lows, k)
  }

  /** The key types of an index: a single string is a binary key. */
  predicate Orderly(kt: KeyType) {
    match kt
    case Single(t) => !t.Str?
    case Binary => true
    case Union(types, lows) => |lows| == |types|
  }

  /** How an index compares two keys: numbers by value, strings and unions by their compare function. */
  function Compare(kt: KeyType, a: Key, b: Key): int
    requires KeyOk(kt, a) && KeyOk(kt, b)
  {
    match kt
    case Single(t) => Sign(Value(t, a) - Value(t, b))
    case Binary => BinaryCompare(a, b)
    case Union(types, _) => UnionCompare(types, a, b)
  }

  /** A key of one number is ordered by that number. */
  lemma SingleIsNumeric(t: ColumnType, a: Key, b: Key)
    requires KeyOk(Single(t), a) && KeyOk(Single(t), b) && !t.Str?
    ensures Compare(Single(t), a, b) < 0 <==> Value(t, a) < Value(t, b)
    ensures Compare(Single(t), a, b) > 0 <==> Value(t, a) > Value(t, b)
  {
  }

  lemma KeysAreTotallyOrdered(kt: KeyType, a: Key, b: Key)
    requires Orderly(kt) && KeyOk(kt, a) && KeyOk(kt, b)
    ensures OrderLaws(Compare(kt, a, b), Compare(kt, b, a), a == b)
  {
    match kt
    case Single(t) =>
      if Value(t, a) == Value(t, b) {
        ValueIsInjective(t, a, b);
      }
    case Binary =>
      BinaryCompareIsLexicographic(a, b);
      BinaryCompareIsLexicographic(b, a);
    case Union(types, lows) => UnionOrder(types, lows, a, b);
  }

  lemma KeyOrderIsTransitive(kt: KeyType, a: Key, b: Key, c: Key)
    requires Orderly(kt) && KeyOk(kt, a) && KeyOk(kt, b) && KeyOk(kt, c)
    requires Compare(kt, a, b) < 0 && Compare(kt, b, c) < 0
    ensures Compare(kt, a, c) < 0
  {
    match kt
    case Single(t) =>
    case Binary => ColumnTransitive(Str, 0, a, b, c);
    case Union(types, lows) => UnionTransitive(types, lows, a, b, c);
  }
}
