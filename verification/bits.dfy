/**
 Python's bitwise operators on non-negative integers: `<<`, `>>`, `|` and `&`.

 Python integers are unbounded, so these are defined on `nat` by their
 arithmetic meaning (shifts) or bit by bit (or, and), and the lemmas below
 say when they reduce to ordinary arithmetic.
 */
module Bits {

  /** 2 to the power k. */
  function Pow2(k: nat): (r: nat)
    ensures r >= 1
  {
    if k == 0 then 1 else 2 * Pow2(k - 1)
  }

  /** `a << k`: the low k bits are clear, and `>> k` undoes it. */
  function Shl(a: nat, k: nat): (r: nat)
    ensures r % Pow2(k) == 0
    ensures Shr(r, k) == a
  {
    DivModUnique(a * Pow2(k), Pow2(k), a, 0);
    a * Pow2(k)
  }

  /** `a >> k`, one bit at a time: a divided by 2^k, rounded down. */
  function Shr(a: nat, k: nat): (r: nat)
    ensures r == a / Pow2(k)
  {
    if k == 0 then a
    else
      ModDouble(a, Pow2(k - 1));
      Shr(a / 2, k - 1)
  }

  /** `a | b`, one bit at a time from the least significant end: at least either operand, at most their sum. */
  function Or(a: nat, b: nat): (r: nat)
    ensures a <= r && b <= r
    ensures r <= a + b
    decreases a
  {
    if a == 0 then b
    else if b == 0 then a
    else 2 * Or(a / 2, b / 2) + (if a % 2 == 1 || b % 2 == 1 then 1 else 0)
  }

  /** `a & b`, one bit at a time from the least significant end. */
  function And(a: nat, b: nat): nat
    decreases a
  {
    if a == 0 || b == 0 then 0
    else 2 * And(a / 2, b / 2) + (if a % 2 == 1 && b % 2 == 1 then 1 else 0)
  }

  /** Quotient and remainder are determined by any decomposition x == d * q + r with 0 <= r < d. */
  lemma DivModUnique(x: int, d: int, q: int, r: int)
    requires d > 0 && 0 <= r < d
    requires x == d * q + r
    ensures x / d == q && x % d == r
  {
    var q' := x / d;
    var r' := x % d;
    assert x == d * q' + r';
    if q > q' {
      assert d * q == d * q' + d * (q - q');
      MulAtLeast(d, q - q');
    } else if q < q' {
      assert d * q' == d * q + d * (q' - q);
      MulAtLeast(d, q' - q);
    }
  }

  lemma MulAtLeast(d: int, n: int)
    requires d > 0 && n >= 1
    ensures d * n >= d
  {
    assert d * n == d + d * (n - 1);
  }

  /** An index below n blocks of L splits into a block number below n and an offset below L. */
  lemma BlockIndex(j: nat, n: nat, len: nat)
    requires len > 0 && j < n * len
    ensures j / len < n && j % len < len
    ensures j == (j / len) * len + j % len
  {
    var q := j / len;
    if q >= n {
      MulMonotone(len, n, q);
    }
  }

  lemma MulMonotone(a: nat, b: nat, c: nat)
    requires b <= c
    ensures a * b <= a * c
  {
    assert a * c == a * b + a * (c - b);
  }

  lemma OrZero(a: nat)
    ensures Or(a, 0) == a && Or(0, a) == a
  {
  }

  /**
   When b fits below bit k, `(a << k) | b` is plain addition: the two operands
   have no set bit in common.
   */
  lemma {:induction false} OrDisjoint(a: nat, k: nat, b: nat)
    requires b < Pow2(k)
    ensures Or(Shl(a, k), b) == Shl(a, k) + b
    decreases k
  {
    var hi := a * Pow2(k);
    if k == 0 {
      assert b == 0;
      OrZero(hi);
    } else if hi == 0 || b == 0 {
      OrZero(hi);
      OrZero(b);
    } else {
      var p := Pow2(k - 1);
      assert Pow2(k) == 2 * p;
      assert hi == 2 * (a * p) + 0;
      DivModUnique(hi, 2, a * p, 0);
      assert b / 2 < p;
      OrDisjoint(a, k - 1, b / 2);
      assert Or(hi / 2, b / 2) == a * p + b / 2;
      assert Or(hi, b) == 2 * (a * p + b / 2) + b % 2;
    }
  }

  /** `x & ((1 << k) - 1)` keeps the low k bits: it is x modulo 2^k. */
  lemma {:induction false} AndLowMask(x: nat, k: nat)
    ensures And(x, Pow2(k) - 1) == x % Pow2(k)
    decreases k
  {
    if k == 0 {
      DivModUnique(x, 1, x, 0);
    } else if x == 0 {
      DivModUnique(0, Pow2(k), 0, 0);
    } else {
      AndLowMask(x / 2, k - 1);
      AndLowMaskStep(x, Pow2(k - 1));
    }
  }

  lemma AndLowMaskStep(x: nat, p: nat)
    requires x > 0 && p >= 1
    requires And(x / 2, p - 1) == (x / 2) % p
    ensures And(x, 2 * p - 1) == x % (2 * p)
  {
    AndOddStep(x, p);
    ModDouble(x, p);
  }

  /** One step of `&` against a mask whose lowest bit is set. */
  lemma AndOddStep(x: nat, p: nat)
    requires x > 0 && p >= 1
    ensures And(x, 2 * p - 1) == 2 * And(x / 2, p - 1) + x % 2
  {
    DivModUnique(2 * p - 1, 2, p - 1, 1);
  }

  /** x modulo 2p, rebuilt from x's lowest bit and (x / 2) modulo p; the quotient is that of x / 2 by p. */
  lemma ModDouble(x: nat, p: nat)
    requires p >= 1
    ensures x % (2 * p) == 2 * ((x / 2) % p) + x % 2
    ensures x / (2 * p) == (x / 2) / p
  {
    var q := (x / 2) / p;
    var h := (x / 2) % p;
    assert x / 2 == p * q + h;
    assert x == 2 * (x / 2) + x % 2;
    assert x == (2 * p) * q + (2 * h + x % 2);
    DivModUnique(x, 2 * p, q, 2 * h + x % 2);
  }

  /** Shifting a value that was built as `(a << k) + b`, b below bit k, right by k recovers a. */
  lemma ShrShl(a: nat, k: nat, b: nat)
    requires b < Pow2(k)
    ensures Shr(Shl(a, k) + b, k) == a
    ensures (Shl(a, k) + b) % Pow2(k) == b
  {
    DivModUnique(a * Pow2(k) + b, Pow2(k), a, b);
  }
}
