/** Bits of natural numbers, and multiples of powers of two. */
module Bits {
  function Pow2(k: nat): nat { if k == 0 then 1 else 2 * Pow2(k - 1) }

  /** (b >> k) & 1 */
  predicate Bit(b: nat, k: nat) { if k == 0 then b % 2 == 1 else Bit(b / 2, k - 1) }

  /** b | (1 << k) */
  function WithBit(b: nat, k: nat): nat {
    if k == 0 then b / 2 * 2 + 1 else 2 * WithBit(b / 2, k - 1) + b % 2
  }

  /** b & ~(1 << k) */
  function WithoutBit(b: nat, k: nat): nat {
    if k == 0 then b / 2 * 2 else 2 * WithoutBit(b / 2, k - 1) + b % 2
  }

  lemma LastBit(n: nat, r: nat)
    requires r < 2
    ensures (2 * n + r) / 2 == n && (2 * n + r) % 2 == r
  {
  }

  lemma {:induction false} OneBitSet(b: nat, k: nat, j: nat)
    ensures Bit(WithBit(b, k), j) <==> j == k || Bit(b, j)
  {
    if k == 0 {
      LastBit(b / 2, 1);
    } else {
      LastBit(WithBit(b / 2, k - 1), b % 2);
      if j > 0 {
        OneBitSet(b / 2, k - 1, j - 1);
      }
    }
  }

  lemma {:induction false} OneBitCleared(b: nat, k: nat, j: nat)
    ensures Bit(WithoutBit(b, k), j) <==> j != k && Bit(b, j)
  {
    if k == 0 {
      LastBit(b / 2, 0);
    } else {
      LastBit(WithoutBit(b / 2, k - 1), b % 2);
      if j > 0 {
        OneBitCleared(b / 2, k - 1, j - 1);
      }
    }
  }

  lemma OneBit(b: nat, k: nat, j: nat)
    ensures Bit(WithBit(b, k), j) <==> j == k || Bit(b, j)
    ensures Bit(WithoutBit(b, k), j) <==> j != k && Bit(b, j)
  {
    OneBitSet(b, k, j);
    OneBitCleared(b, k, j);
  }

  lemma {:induction false} BitRange(b: nat, k: nat, m: nat)
    requires k < m && b < Pow2(m)
    ensures WithBit(b, k) < Pow2(m) && WithoutBit(b, k) < Pow2(m)
  {
    if k > 0 {
      BitRange(b / 2, k - 1, m - 1);
    }
  }

  lemma NoBits(k: nat)
    ensures !Bit(0, k)
  {
  }

  /** Setting a bit that is not set adds its value. */
  lemma {:induction false} WithBitAdds(b: nat, k: nat)
    requires !Bit(b, k)
    ensures WithBit(b, k) == b + Pow2(k)
  {
    if k > 0 {
      WithBitAdds(b / 2, k - 1);
    }
  }

  /** A power of two above all bits of b changes none of them. */
  lemma {:induction false} BitBelow(b: nat, k: nat, m: nat)
    requires k < m && b < Pow2(m)
    ensures Bit(Pow2(m) + b, k) <==> Bit(b, k)
  {
    if k > 0 {
      BitBelow(b / 2, k - 1, m - 1);
      assert (Pow2(m) + b) / 2 == Pow2(m - 1) + b / 2;
    }
  }

  lemma {:induction false} BitOfPower(m: nat)
    ensures Bit(Pow2(m), m)
  {
    if m > 0 {
      BitOfPower(m - 1);
      Halved(Pow2(m - 1));
    }
  }

  /** The bitwise or of two numbers. */
  function Or(a: nat, b: nat): nat
    decreases a + b
  {
    if a == 0 then b
    else if b == 0 then a
    else 2 * Or(a / 2, b / 2) + if a % 2 == 1 || b % 2 == 1 then 1 else 0
  }

  lemma {:induction false} OrWithoutOverlap(a: nat, b: nat, k: nat)
    requires b < Pow2(k)
    ensures Or(a * Pow2(k), b) == a * Pow2(k) + b
  {
    if k > 0 && a != 0 && b != 0 {
      var high := a * Pow2(k - 1);
      OrWithoutOverlap(a, b / 2, k - 1);
      Doubled(a, Pow2(k - 1));
      PowerIsPositive(k - 1);
      OrOfDouble(high, b);
    }
  }

  lemma Halved(x: nat)
    ensures 2 * x / 2 == x && 2 * x % 2 == 0
  {
  }

  lemma Doubled(a: nat, x: nat)
    requires a > 0 && x >= 0
    ensures a * (2 * x) == 2 * (a * x) && (x > 0 ==> a * x > 0)
  {
  }

  lemma {:induction false} PowerIsPositive(k: nat)
    ensures Pow2(k) > 0
  {
    if k > 0 {
      PowerIsPositive(k - 1);
    }
  }

  lemma OrOfDouble(high: nat, b: nat)
    requires high > 0 && b > 0
    ensures Or(2 * high, b) == 2 * Or(high, b / 2) + b % 2
  {
    assert 2 * high / 2 == high && 2 * high % 2 == 0;
  }

  // ---------------------------------------------------------------- multiples

  /** x is a multiple of 2^k. */
  predicate Multiple(x: nat, k: nat) { k == 0 || (x % 2 == 0 && Multiple(x / 2, k - 1)) }

  lemma {:induction false} SumOfMultiples(x: nat, y: nat, k: nat)
    requires Multiple(x, k)
    ensures Multiple(x + y, k) <==> Multiple(y, k)
  {
    if k > 0 {
      SumOfMultiples(x / 2, y / 2, k - 1);
      assert y % 2 == 0 ==> (x + y) / 2 == x / 2 + y / 2;
    }
  }

  lemma {:induction false} PowerIsMultiple(k: nat, m: nat)
    requires k <= m
    ensures Multiple(Pow2(m), k)
  {
    if k > 0 {
      PowerIsMultiple(k - 1, m - 1);
      Halved(Pow2(m - 1));
      assert Pow2(m) == 2 * Pow2(m - 1);
    }
  }

  lemma {:induction false} CoarserMultiple(x: nat, k: nat, m: nat)
    requires k <= m && Multiple(x, m)
    ensures Multiple(x, k)
  {
    if k > 0 {
      CoarserMultiple(x / 2, k - 1, m - 1);
    }
  }

  /** A multiple of 2^k is one of 2^(k+1) unless its bit k is set; taking that bit away makes it one. */
  lemma {:induction false} NextMultiple(x: nat, k: nat)
    requires Multiple(x, k)
    ensures Multiple(x, k + 1) <==> !Bit(x, k)
    ensures Bit(x, k) ==> x >= Pow2(k) && Multiple(x - Pow2(k), k + 1)
  {
    if k > 0 {
      NextMultiple(x / 2, k - 1);
      if Bit(x, k) {
        assert (x - Pow2(k)) / 2 == x / 2 - Pow2(k - 1);
      }
    }
  }
}
