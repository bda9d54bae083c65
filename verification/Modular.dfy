/** Quotients and remainders with variable divisors. */
module Modular {

  lemma MulStep(a: int, b: int, d: nat)
    requires a < b
    ensures a * d + d == (a + 1) * d <= b * d
  {
  }

  lemma MulAtMost(a: nat, b: nat, d: nat)
    requires a <= b
    ensures a * d <= b * d
  {
  }

  lemma Distribute(a: int, b: int, d: int)
    ensures (a + b) * d == a * d + b * d
  {
  }

  /** A quotient and remainder that fit are the only ones. */
  lemma DivModUnique(x: nat, d: nat, q: int, r: nat)
    requires r < d && x == q * d + r
    ensures x / d == q && x % d == r
  {
    var q' := x / d;
    assert x == q' * d + x % d;
    if q' < q {
      MulStep(q', q, d);
      assert false;
    } else if q < q' {
      MulStep(q, q', d);
      assert false;
    }
  }

  /** A number between two marks of the q-th round. */
  lemma WithinRound(x: nat, d: nat, q: nat, lo: nat, hi: nat)
    requires q * d + lo <= x < q * d + hi && hi <= d
    ensures x / d == q && lo <= x % d < hi
  {
    DivModUnique(x, d, q, x - q * d);
  }

  lemma AddMultiple(x: nat, k: nat, d: nat)
    requires d > 0
    ensures (k * d + x) % d == x % d
    ensures (k * d + x) / d == k + x / d
  {
    var q, r := x / d, x % d;
    assert (k + q) * d == k * d + q * d;
    DivModUnique(k * d + x, d, k + q, r);
  }

  lemma ModOfMod(x: nat, c: nat, d: nat)
    requires c > 0 && d > 0
    ensures c * d > 0 && x % (c * d) % d == x % d
  {
    var q, r := x / (c * d), x % (c * d);
    assert x == q * (c * d) + r;
    assert q * (c * d) == (q * c) * d;
    AddMultiple(r, q * c, d);
  }

  /** Two numbers less than `d` apart have the same remainder only if equal. */
  lemma SameResidueSameNumber(a: nat, b: nat, d: nat)
    requires d > 0 && a % d == b % d && a <= b < a + d
    ensures a == b
  {
    var qa, qb := a / d, b / d;
    assert a == qa * d + a % d && b == qb * d + b % d;
    if qa < qb {
      MulStep(qa, qb, d);
      assert false;
    } else if qb < qa {
      MulStep(qb, qa, d);
      assert false;
    }
  }

  /** Counting on by one either stays in the round or starts the next. */
  lemma Successor(a: nat, d: nat)
    requires d > 0
    ensures a % d == d - 1 ==> (a + 1) % d == 0 && (a + 1) / d == a / d + 1
    ensures a % d != d - 1 ==> (a + 1) % d == a % d + 1 && (a + 1) / d == a / d
  {
    var q, r := a / d, a % d;
    assert a == q * d + r;
    if r == d - 1 {
      assert (q + 1) * d == q * d + d;
      DivModUnique(a + 1, d, q + 1, 0);
    } else {
      DivModUnique(a + 1, d, q, r + 1);
    }
  }

  /** The place of number `x` in an array of `n` that is used round and round. */
  function Residue(n: nat, x: nat): (r: nat)
    requires n > 0
    ensures r < n
  {
    x % n
  }

  /** Places are counted from the first one on, round and round. */
  lemma ResiduesGoRound(n: nat, x: nat)
    requires n > 0
    ensures Residue(n, 0) == 0
    ensures Residue(n, x + 1) == if Residue(n, x) == n - 1 then 0 else Residue(n, x) + 1
  {
    DivModUnique(0, n, 0, 0);
    Successor(x, n);
  }

  /** Numbers of one window have places of their own, and places repeat. */
  lemma OwnResidue(n: nat, a: nat, b: nat)
    requires n > 0
    ensures a != b && a < b + n && b < a + n ==> Residue(n, a) != Residue(n, b)
    ensures Residue(n, a + n) == Residue(n, a)
  {
    if Residue(n, a) == Residue(n, b) {
      if a <= b < a + n {
        SameResidueSameNumber(a, b, n);
      } else if b < a < b + n {
        SameResidueSameNumber(b, a, n);
      }
    }
    AddMultiple(a, 1, n);
  }

  /** Some number of a window has any given place. */
  lemma WithResidue(n: nat, lo: nat, r: nat) returns (x: nat)
    requires r < n
    ensures lo <= x < lo + n && Residue(n, x) == r
  {
    var k, q := lo % n, lo / n;
    assert lo == q * n + k;
    x := if k <= r then lo + r - k else lo + r - k + n;
    if k <= r {
      DivModUnique(x, n, q, r);
    } else {
      MulStep(q, q + 1, n);
      DivModUnique(x, n, q + 1, r);
    }
  }
}
