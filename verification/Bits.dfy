/** Shifts, `|` and `&` on unbounded two's-complement integers, as Python has them. */
module Bits {

  function Pow2(n: nat): (p: int)
    ensures p >= 1
  {
    if n == 0 then 1 else 2 * Pow2(n - 1)
  }

  lemma {:induction false} Pow2Adds(a: nat, b: nat)
    ensures Pow2(a + b) == Pow2(a) * Pow2(b)
  {
    if a > 0 {
      Pow2Adds(a - 1, b);
    }
  }

  function ShiftLeft(x: int, n: nat): int {
    if n == 0 then x else 2 * ShiftLeft(x, n - 1)
  }

  lemma {:induction false} ShiftLeftMultiplies(x: int, n: nat)
    ensures ShiftLeft(x, n) == x * Pow2(n)
  {
    if n > 0 {
      ShiftLeftMultiplies(x, n - 1);
    }
  }

  /** How far a number is from having all its bits equal. */
  function Magnitude(x: int): nat {
    if x >= 0 then x else -x - 1
  }

  /** Bit by bit; beyond its significant bits a number repeats its sign. */
  function Or(a: int, b: int): int
    decreases Magnitude(a) + Magnitude(b)
  {
    if Magnitude(a) == 0 && Magnitude(b) == 0 then (if a == 0 && b == 0 then 0 else -1)
    else (if a % 2 == 1 || b % 2 == 1 then 1 else 0) + 2 * Or(a / 2, b / 2)
  }

  function And(a: nat, b: nat): nat {
    if a == 0 || b == 0 then 0
    else (if a % 2 == 1 && b % 2 == 1 then 1 else 0) + 2 * And(a / 2, b / 2)
  }

  lemma {:induction false} OrZero(a: int)
    ensures Or(a, 0) == a
    decreases Magnitude(a)
  {
    if Magnitude(a) > 0 {
      OrZero(a / 2);
    }
  }

  /** `|` of numbers with no bit in common is their sum. */
  lemma {:induction false} OrDisjoint(x: int, y: nat, n: nat)
    requires y < Pow2(n)
    ensures Or(ShiftLeft(x, n), y) == ShiftLeft(x, n) + y
  {
    if n == 0 {
      OrZero(x);
    } else {
      var a := ShiftLeft(x, n);
      assert a == 2 * ShiftLeft(x, n - 1);
      OrDisjoint(x, y / 2, n - 1);
      if Magnitude(a) == 0 && Magnitude(y) == 0 {
        assert a == 0 && y == 0;
      }
    }
  }

  lemma MulAtLeast(k: int, m: int)
    requires k >= 1 && m > 0
    ensures k * m >= m
  {
  }

  lemma MulSub(a: int, b: int, m: int)
    ensures (a - b) * m == a * m - b * m
  {
  }

  lemma NotLarger(q: int, r: int, q': int, r': int, m: int)
    requires m > 0 && q * m + r == q' * m + r' && 0 <= r < m && 0 <= r' < m
    ensures q <= q'
  {
    if q > q' {
      MulAtLeast(q - q', m);
      MulSub(q, q', m);
    }
  }

  lemma DivModUnique(x: int, m: int, q: int, r: int)
    requires m > 0 && x == q * m + r && 0 <= r < m
    ensures x / m == q && x % m == r
  {
    NotLarger(q, r, x / m, x % m, m);
    NotLarger(x / m, x % m, q, r, m);
  }

  lemma HalvesOfMask(n: nat)
    requires n > 0
    ensures (Pow2(n) - 1) / 2 == Pow2(n - 1) - 1 && (Pow2(n) - 1) % 2 == 1
  {
  }

  lemma MulAssoc(a: int, b: int, c: int)
    ensures a * (b * c) == (a * b) * c
  {
  }

  lemma RemainderByDouble(a: nat, half: int)
    requires half > 0
    ensures a % (2 * half) == 2 * ((a / 2) % half) + a % 2
  {
    var q, r := (a / 2) / half, (a / 2) % half;
    MulAssoc(q, 2, half);
    DivModUnique(a, 2 * half, q, 2 * r + a % 2);
  }

  /** `&` with a mask of n ones is the remainder by 2^n. */
  lemma {:induction false} AndMask(a: nat, n: nat)
    ensures And(a, Pow2(n) - 1) == a % Pow2(n)
  {
    if n > 0 {
      HalvesOfMask(n);
      AndMask(a / 2, n - 1);
      RemainderByDouble(a, Pow2(n - 1));
    }
  }
}
