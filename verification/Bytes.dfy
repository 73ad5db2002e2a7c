/** Bytes, little-endian words and concatenation of byte strings. */
module Bytes {
  type byte = x: int | 0 <= x < 256

  /** The w low bytes of n, least significant first. */
  function LittleEndian(n: nat, w: nat): (b: seq<byte>)
    ensures |b| == w
  {
    if w == 0 then [] else [n % 256] + LittleEndian(n / 256, w - 1)
  }

  /** The number a little-endian byte string stands for. */
  function Number(b: seq<byte>): nat {
    if b == [] then 0 else b[0] + 256 * Number(b[1..])
  }

  function Pow256(w: nat): nat { if w == 0 then 1 else 256 * Pow256(w - 1) }

  lemma {:induction false} NumberOfLittleEndian(n: nat, w: nat)
    requires n < Pow256(w)
    ensures Number(LittleEndian(n, w)) == n
  {
    if w > 0 {
      NumberOfLittleEndian(n / 256, w - 1);
      assert LittleEndian(n, w)[1..] == LittleEndian(n / 256, w - 1);
    }
  }

  lemma LowByte(b: byte, n: nat)
    ensures (b + 256 * n) % 256 == b && (b + 256 * n) / 256 == n
  {
  }

  lemma {:induction false} LittleEndianOfNumber(b: seq<byte>)
    ensures Number(b) < Pow256(|b|) && LittleEndian(Number(b), |b|) == b
  {
    if b != [] {
      var rest := b[1..];
      LittleEndianOfNumber(rest);
      LowByte(b[0], Number(rest));
      assert Number(b) == b[0] + 256 * Number(rest);
      assert Pow256(|b|) == 256 * Pow256(|rest|);
      assert LittleEndian(Number(b), |b|) == [b[0]] + rest;
    }
  }

  const WORD16: nat := 0x1_0000
  const WORD32: nat := 0x1_0000_0000
  const WORD64: nat := 0x1_0000_0000_0000_0000

  function U16(n: nat): (b: seq<byte>)
    ensures |b| == 2
  {
    LittleEndian(n, 2)
  }

  function U32(n: nat): (b: seq<byte>)
    ensures |b| == 4
  {
    LittleEndian(n, 4)
  }

  lemma WordRange()
    ensures Pow256(1) == 256 && Pow256(2) == WORD16 && Pow256(4) == WORD32 && Pow256(8) == WORD64
  {
    assert Pow256(0) == 1;
    assert Pow256(3) == 256 * Pow256(2);
    assert Pow256(5) == 256 * Pow256(4);
    assert Pow256(7) == 256 * Pow256(6);
  }

  function GetU16(b: seq<byte>, at: nat): nat
    requires at + 2 <= |b|
  {
    Number(b[at..at + 2])
  }

  function GetU32(b: seq<byte>, at: nat): nat
    requires at + 4 <= |b|
  {
    Number(b[at..at + 4])
  }

  function GetU64(b: seq<byte>, at: nat): nat
    requires at + 8 <= |b|
  {
    Number(b[at..at + 8])
  }

  /** Reading back what was stored. */
  lemma StoredWord(n: nat)
    ensures n < WORD16 ==> Number(U16(n)) == n
    ensures n < WORD32 ==> Number(U32(n)) == n
  {
    WordRange();
    if n < WORD16 {
      NumberOfLittleEndian(n, 2);
    }
    if n < WORD32 {
      NumberOfLittleEndian(n, 4);
    }
  }

  lemma SliceOfPrefix(b: seq<byte>, n: nat, i: nat, j: nat)
    requires i <= j <= n <= |b|
    ensures b[..n][i..j] == b[i..j]
  {
  }

  lemma SliceOfSlice(b: seq<byte>, from: nat, to: nat, i: nat, j: nat)
    requires from <= to <= |b| && i <= j <= to - from
    ensures b[from..to][i..j] == b[from + i..from + j]
  {
    forall k | 0 <= k < j - i ensures b[from..to][i..j][k] == b[from + i..from + j][k] {
      assert b[from..to][i + k] == b[from + i + k];
    }
  }

  /** All the parts, one after the other. */
  function Flat<T>(parts: seq<seq<T>>): seq<T> {
    if parts == [] then [] else Flat(parts[..|parts| - 1]) + parts[|parts| - 1]
  }

  lemma FlatSnoc<T>(parts: seq<seq<T>>, part: seq<T>)
    ensures Flat(parts + [part]) == Flat(parts) + part
  {
    assert (parts + [part])[..|parts|] == parts;
  }

  /** Part k starts right after the parts before it. */
  lemma {:induction false} FlatAt<T>(parts: seq<seq<T>>, k: nat)
    requires k < |parts|
    ensures var at := |Flat(parts[..k])|;
            at + |parts[k]| <= |Flat(parts)| && Flat(parts)[at..at + |parts[k]|] == parts[k]
    ensures Flat(parts[..k + 1]) == Flat(parts[..k]) + parts[k]
    decreases |parts|
  {
    assert parts[..k + 1][..k] == parts[..k];
    var n := |parts| - 1;
    if k < n {
      FlatAt(parts[..n], k);
      assert parts[..n][..k] == parts[..k];
      var at := |Flat(parts[..k])|;
      assert Flat(parts)[at..at + |parts[k]|] == Flat(parts[..n])[at..at + |parts[k]|];
    }
  }

  lemma {:induction false} FlatConcat<T>(a: seq<seq<T>>, b: seq<seq<T>>)
    ensures Flat(a + b) == Flat(a) + Flat(b)
  {
    if b == [] {
      assert a + b == a;
    } else {
      var n := |b| - 1;
      FlatConcat(a, b[..n]);
      assert a + b == (a + b[..n]) + [b[n]];
      FlatSnoc(a + b[..n], b[n]);
    }
  }

  function Sum<T>(f: T -> nat, s: seq<T>): nat {
    if s == [] then 0 else Sum(f, s[..|s| - 1]) + f(s[|s| - 1])
  }

  lemma SumSnoc<T>(f: T -> nat, s: seq<T>, x: T)
    ensures Sum(f, s + [x]) == Sum(f, s) + f(x)
  {
    assert (s + [x])[..|s|] == s;
  }

  lemma {:induction false} SumConcat<T>(f: T -> nat, a: seq<T>, b: seq<T>)
    ensures Sum(f, a + b) == Sum(f, a) + Sum(f, b)
  {
    if b == [] {
      assert a + b == a;
    } else {
      var n := |b| - 1;
      SumConcat(f, a, b[..n]);
      assert a + b == (a + b[..n]) + [b[n]];
      SumSnoc(f, a + b[..n], b[n]);
    }
  }

  /** Putting an element in, or another one in its place. */
  lemma {:induction false} SumInsert<T>(f: T -> nat, s: seq<T>, i: nat, x: T)
    requires i <= |s|
    ensures Sum(f, s[..i] + [x] + s[i..]) == Sum(f, s) + f(x)
  {
    SumConcat(f, s[..i] + [x], s[i..]);
    SumSnoc(f, s[..i], x);
    SumConcat(f, s[..i], s[i..]);
    assert s[..i] + s[i..] == s;
  }

  lemma {:induction false} SumUpdate<T>(f: T -> nat, s: seq<T>, i: nat, x: T)
    requires i < |s|
    ensures Sum(f, s[i := x]) + f(s[i]) == Sum(f, s) + f(x)
  {
    var rest := s[..i] + s[i + 1..];
    assert rest[..i] == s[..i] && rest[i..] == s[i + 1..];
    SumInsert(f, rest, i, x);
    SumInsert(f, rest, i, s[i]);
    assert s[i := x] == s[..i] + [x] + s[i + 1..];
    assert s == s[..i] + [s[i]] + s[i + 1..];
  }

  // ---------------------------------------------------------------- memory

  /** The bytes b lie at the position `at` of s. */
  predicate Holds(s: seq<byte>, at: nat, b: seq<byte>) {
    at + |b| <= |s| && s[at..at + |b|] == b
  }

  function Spliced(s: seq<byte>, at: nat, b: seq<byte>): (r: seq<byte>)
    requires at + |b| <= |s|
    ensures |r| == |s|
  {
    s[..at] + b + s[at + |b|..]
  }

  lemma HoldsJoin(s: seq<byte>, at: nat, a: seq<byte>, b: seq<byte>)
    ensures Holds(s, at, a) && Holds(s, at + |a|, b) <==> Holds(s, at, a + b)
  {
    if at + |a| + |b| <= |s| {
      assert s[at..at + |a| + |b|] == s[at..at + |a|] + s[at + |a|..at + |a| + |b|];
      assert (a + b)[..|a|] == a && (a + b)[|a|..] == b;
    }
  }

  lemma HoldsPart(s: seq<byte>, at: nat, b: seq<byte>, i: nat, j: nat)
    requires Holds(s, at, b) && i <= j <= |b|
    ensures Holds(s, at + i, b[i..j])
  {
    SliceOfSlice(s, at, at + |b|, i, j);
  }

  lemma HoldsSpliced(s: seq<byte>, p: nat, c: seq<byte>, at: nat, b: seq<byte>)
    requires p + |c| <= |s|
    ensures Holds(Spliced(s, p, c), p, c)
    ensures Holds(s, at, b) && (at + |b| <= p || p + |c| <= at) ==> Holds(Spliced(s, p, c), at, b)
  {
    if Holds(s, at, b) && (at + |b| <= p || p + |c| <= at) {
      assert Spliced(s, p, c)[at..at + |b|] == s[at..at + |b|];
    }
  }

  /** What lies in front of a cut stays. */
  lemma HoldsCut(s: seq<byte>, n: nat, at: nat, b: seq<byte>)
    requires Holds(s, at, b) && at + |b| <= n <= |s|
    ensures Holds(s[..n], at, b)
  {
    assert s[..n][at..at + |b|] == s[at..at + |b|];
  }

  lemma HeldWord(s: seq<byte>, at: nat, n: nat)
    requires Holds(s, at, U32(n)) && n < WORD32
    ensures at + 4 <= |s| && GetU32(s, at) == n
  {
    StoredWord(n);
  }

  lemma HeldHalf(s: seq<byte>, at: nat, n: nat)
    requires Holds(s, at, U16(n)) && n < WORD16
    ensures at + 2 <= |s| && GetU16(s, at) == n
  {
    StoredWord(n);
  }

  /** Two stores side by side are one store. */
  lemma SplicedTwice(s: seq<byte>, at: nat, a: seq<byte>, b: seq<byte>)
    requires at + |a| + |b| <= |s|
    ensures Spliced(Spliced(s, at, a), at + |a|, b) == Spliced(s, at, a + b)
  {
    var t := Spliced(s, at, a);
    assert t[..at + |a|] == s[..at] + a;
    assert t[at + |a| + |b|..] == s[at + |a| + |b|..];
  }

  /** memcpy. */
  method Put(data: array<byte>, at: nat, b: seq<byte>)
    requires at + |b| <= data.Length
    modifies data
    ensures data[..] == Spliced(old(data[..]), at, b)
  {
    for i := 0 to |b|
      invariant data[at..at + i] == b[..i]
      invariant data[..at] == old(data[..at]) && data[at + i..] == old(data[at + i..])
    {
      data[at + i] := b[i];
      assert data[at..at + i + 1] == data[at..at + i] + [b[i]];
      assert old(data[at + i..])[1..] == old(data[at + i + 1..]);
      assert data[at + i..][1..] == data[at + i + 1..];
    }
    assert data[..] == data[..at] + data[at..at + |b|] + data[at + |b|..];
  }

  /** An array of 32-bit words. */
  function Words(ids: seq<nat>): (b: seq<byte>)
    ensures |b| == 4 * |ids|
  {
    if ids == [] then [] else Words(ids[..|ids| - 1]) + U32(ids[|ids| - 1])
  }

  function ReadWords(b: seq<byte>, at: nat, n: nat): (ids: seq<nat>)
    requires at + 4 * n <= |b|
    ensures |ids| == n
  {
    if n == 0 then [] else ReadWords(b, at, n - 1) + [GetU32(b, at + 4 * (n - 1))]
  }

  lemma {:induction false} ReadBack(b: seq<byte>, at: nat, ids: seq<nat>)
    requires Holds(b, at, Words(ids)) && forall i | 0 <= i < |ids| :: ids[i] < WORD32
    ensures ReadWords(b, at, |ids|) == ids
  {
    if ids != [] {
      var n := |ids| - 1;
      HoldsJoin(b, at, Words(ids[..n]), U32(ids[n]));
      ReadBack(b, at, ids[..n]);
      StoredWord(ids[n]);
    }
  }
}
