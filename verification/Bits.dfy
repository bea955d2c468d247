/** Bitwise operations on non-negative integers, bit by bit, and the cases in which they are plain arithmetic. */
module Bits {
  import opened Common

  function Pow2(n: nat): (p: nat)
    ensures p > 0
  {
    if n == 0 then 1 else 2 * Pow2(n - 1)
  }

  function Or(a: nat, b: nat): nat
  {
    if a == 0 && b == 0 then 0 else 2 * Or(a / 2, b / 2) + if a % 2 == 1 || b % 2 == 1 then 1 else 0
  }

  function And(a: nat, b: nat): nat
  {
    if a == 0 || b == 0 then 0 else 2 * And(a / 2, b / 2) + if a % 2 == 1 && b % 2 == 1 then 1 else 0
  }

  /** A left shift of a 64-bit word drops what leaves it at the top. */
  function ShiftLeft64(a: nat, n: nat): nat { a * Pow2(n) % U64_MODULUS }

  function ShiftRight(a: nat, n: nat): nat { if n == 0 then a else ShiftRight(a / 2, n - 1) }

  lemma {:induction false} OrZero(b: nat)
    ensures Or(0, b) == b
  {
    if b > 0 { OrZero(b / 2); }
  }

  /** Bits that lie above all of `a`'s are added by an or. */
  lemma {:induction false} OrDisjoint(a: nat, b: nat, n: nat)
    requires a < Pow2(n)
    ensures Or(a, b * Pow2(n)) == a + b * Pow2(n)
  {
    if n == 0 {
      OrZero(b);
    } else {
      var high := b * Pow2(n - 1);
      assert b * Pow2(n) == 2 * high;
      OrDisjoint(a / 2, b, n - 1);
    }
  }

  /** Setting bit `n` of a number that has no higher one. */
  lemma {:induction false} OrBit(a: nat, n: nat)
    requires a < 2 * Pow2(n)
    ensures Or(a, Pow2(n)) == a % Pow2(n) + Pow2(n)
  {
    if n == 0 {
      assert a == 0 || a == 1;
      assert Or(0, 0) == 0;
      assert Or(a, 1) == 1;
    } else {
      var p := Pow2(n - 1);
      assert Pow2(n) == 2 * p;
      OrBit(a / 2, n - 1);
      HalfMod(a, p);
    }
  }

  /** The same of the low bits of any number. */
  lemma OrTopBit(a: nat, n: nat)
    ensures Or(a % (2 * Pow2(n)), Pow2(n)) == a % Pow2(n) + Pow2(n)
  {
    var p := Pow2(n);
    OrBit(a % (2 * p), n);
    ModOfMod(a, p);
  }

  lemma ModOfMod(a: nat, p: nat)
    requires p > 0
    ensures a % (2 * p) % p == a % p
  {
    var q, r := a / (2 * p), a % (2 * p);
    var q', r' := r / p, r % p;
    assert r == q' * p + r';
    assert a == (2 * q + q') * p + r';
    DivModUnique(a, p, 2 * q + q', r');
  }

  /** A mask of `n` ones keeps the remainder. */
  lemma {:induction false} AndMask(a: nat, n: nat)
    ensures And(a, Pow2(n) - 1) == a % Pow2(n)
  {
    if n > 0 {
      AndMask(a / 2, n - 1);
      WiderMask(a, Pow2(n - 1) - 1, Pow2(n));
    }
  }

  lemma WiderMask(a: nat, m: nat, q: nat)
    requires And(a / 2, m) == a / 2 % (m + 1) && q == 2 * (m + 1)
    ensures And(a, q - 1) == a % q
  {
    AndOdd(a, m);
    HalfMod(a, m + 1);
  }

  lemma AndOdd(a: nat, m: nat)
    ensures And(a, 2 * m + 1) == 2 * And(a / 2, m) + a % 2
  {
    assert (2 * m + 1) / 2 == m;
  }

  lemma HalfMod(a: nat, p: nat)
    requires p > 0
    ensures a % (2 * p) == 2 * (a / 2 % p) + a % 2
  {
    var h := a / 2;
    var q, r := h / p, h % p;
    assert h == q * p + r;
    assert a == q * (2 * p) + (2 * r + a % 2);
    DivModUnique(a, 2 * p, q, 2 * r + a % 2);
  }

  lemma HalfDiv(a: nat, p: nat)
    requires p > 0
    ensures a / (2 * p) == a / 2 / p
  {
    var h := a / 2;
    var q, r := h / p, h % p;
    assert a == q * (2 * p) + (2 * r + a % 2);
    DivModUnique(a, 2 * p, q, 2 * r + a % 2);
  }

  lemma {:induction false} ShiftRightDivides(a: nat, n: nat)
    ensures ShiftRight(a, n) == a / Pow2(n)
  {
    if n > 0 {
      ShiftRightDivides(a / 2, n - 1);
      HalfDiv(a, Pow2(n - 1));
    }
  }

  lemma {:induction false} PowersAdd(m: nat, n: nat)
    ensures Pow2(m + n) == Pow2(m) * Pow2(n)
  {
    if m > 0 {
      PowersAdd(m - 1, n);
      assert Pow2(m + n) == 2 * Pow2(m - 1 + n);
      assert Pow2(m) * Pow2(n) == 2 * (Pow2(m - 1) * Pow2(n));
    }
  }

  lemma SevenBits()
    ensures Pow2(7) == 0x80
  {
  }

  lemma Squared(n: nat, p: nat)
    requires Pow2(n) == p
    ensures Pow2(2 * n) == p * p
  {
    PowersAdd(n, n);
  }

  lemma ByteSize(n: nat)
    requires n == 8
    ensures Pow2(n) == 0x100
  {
    assert Pow2(n) == 2 * Pow2(n - 1);
    SevenBits();
  }

  lemma WordSize(bytes: nat)
    requires bytes == 8
    ensures Pow2(8 * bytes) == U64_MODULUS
  {
    ByteSize(bytes);
    Squared(bytes, 0x100);
    Squared(2 * bytes, 0x1_0000);
    Squared(4 * bytes, 0x1_0000_0000);
  }

  lemma {:induction false} PowersGrow(m: nat, n: nat)
    requires m <= n
    ensures Pow2(m) <= Pow2(n)
  {
    if m < n { PowersGrow(m, n - 1); }
  }
}
