/** Bit masks as numbers. */
module Bits {

  function Pow2(n: nat): (r: nat)
    ensures r >= 1
  {
    if n == 0 then 1 else 2 * Pow2(n - 1)
  }

  predicate HasBit(m: nat, i: nat) {
    if i == 0 then m % 2 == 1 else HasBit(m / 2, i - 1)
  }

  /** The mask m | (1 << i). */
  function SetBit(m: nat, i: nat): nat {
    if i == 0 then m / 2 * 2 + 1 else SetBit(m / 2, i - 1) * 2 + m % 2
  }

  lemma {:induction false} SetBitHas(m: nat, i: nat, j: nat)
    ensures HasBit(SetBit(m, i), j) <==> i == j || HasBit(m, j)
  {
    if i == 0 {
      assert SetBit(m, 0) / 2 == m / 2;
    } else {
      assert SetBit(m, i) / 2 == SetBit(m / 2, i - 1) && SetBit(m, i) % 2 == m % 2;
      if j > 0 {
        SetBitHas(m / 2, i - 1, j - 1);
      }
    }
  }

  lemma HalfBit(m: nat, i: nat)
    requires i > 0
    ensures HasBit(m, i) <==> HasBit(m / 2, i - 1)
  {
  }

  lemma {:induction false} ZeroHasNone(i: nat)
    ensures !HasBit(0, i)
  {
    if i > 0 {
      ZeroHasNone(i - 1);
    }
  }

  lemma NonZeroHasSome(m: nat)
    requires m > 0
    ensures HighBit(m, 0)
  {
    var j := SomeBit(m);
    assert HasBit(m, j);
  }

  lemma NonZeroIff(m: nat)
    ensures m >= 1 <==> HighBit(m, 0)
  {
    if m > 0 {
      NonZeroHasSome(m);
    } else {
      forall j: nat ensures !HasBit(m, j) {
        ZeroHasNone(j);
      }
    }
  }

  predicate AllBits(m: nat, n: nat) {
    forall i: nat :: i < n ==> HasBit(m, i)
  }

  /** A bit from `n` on. */
  ghost predicate HighBit(m: nat, n: nat) {
    exists j: nat :: j >= n && HasBit(m, j)
  }

  /** A mask is at least 2^n when it has a bit from n on. */
  lemma {:induction false} HighBitIff(m: nat, n: nat)
    ensures m >= Pow2(n) <==> HighBit(m, n)
  {
    if n == 0 {
      NonZeroIff(m);
    } else {
      HighBitIff(m / 2, n - 1);
      if m / 2 >= Pow2(n - 1) {
        var j: nat :| j >= n - 1 && HasBit(m / 2, j);
        HalfBit(m, j + 1);
      } else {
        forall j: nat | j >= n ensures !HasBit(m, j) {
          HalfBit(m, j);
        }
      }
    }
  }

  lemma {:induction false} SomeBit(m: nat) returns (j: nat)
    requires m > 0
    ensures HasBit(m, j)
  {
    if m % 2 == 1 {
      j := 0;
    } else {
      j := SomeBit(m / 2);
      j := j + 1;
    }
  }

  /** Below 2^n the only mask with all n bits is the greatest. */
  lemma {:induction false} FullIff(m: nat, n: nat)
    requires m < Pow2(n)
    ensures m == Pow2(n) - 1 <==> AllBits(m, n)
  {
    if n > 0 {
      FullIff(m / 2, n - 1);
      assert HasBit(m, 0) <==> m % 2 == 1;
      forall i: nat | 0 < i ensures HasBit(m, i) <==> HasBit(m / 2, i - 1) {
        HalfBit(m, i);
      }
      if AllBits(m, n) {
        forall i: nat | i < n - 1 ensures HasBit(m / 2, i) {
          HalfBit(m, i + 1);
        }
      }
    }
  }

  /** The test "mask >= 2^n - 1" holds when all n bits are set, or one beyond them. */
  lemma AtLeastFullIff(m: nat, n: nat)
    ensures m >= Pow2(n) - 1 <==> AllBits(m, n) || HighBit(m, n)
  {
    HighBitIff(m, n);
    if m < Pow2(n) {
      FullIff(m, n);
    }
  }

  lemma SixteenthPower()
    ensures Pow2(16) == 0x1_0000
  {
    assert Pow2(4) == 16 && Pow2(8) == 256;
    assert Pow2(12) == 16 * Pow2(8);
    assert Pow2(16) == 16 * Pow2(12);
  }

  /** All sixteen low bits. */
  lemma SixteenBits(i: nat)
    requires i < 16
    ensures HasBit(0xffff, i)
  {
    SixteenthPower();
    FullIff(0xffff, 16);
  }

  /** And no other. */
  lemma SixteenIsAll(i: nat)
    requires i >= 16
    ensures !HasBit(0xffff, i)
  {
    SixteenthPower();
    HighBitIff(0xffff, 16);
  }
}
