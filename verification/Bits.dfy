/** Powers of two and the bit operations the big-integer code uses, on natural numbers. */
module Bits {

  function Pow2(n: nat): (p: nat)
    ensures p > 0
  {
    if n == 0 then 1 else 2 * Pow2(n - 1)
  }

  lemma {:induction false} Pow2Add(m: nat, n: nat)
    ensures Pow2(m + n) == Pow2(m) * Pow2(n)
  {
    if n > 0 {
      Pow2Add(m, n - 1);
      assert Pow2(m) * (2 * Pow2(n - 1)) == 2 * (Pow2(m) * Pow2(n - 1));
    }
  }

  lemma {:induction false} Pow2Monotone(m: nat, n: nat)
    requires m <= n
    ensures Pow2(m) <= Pow2(n)
    decreases n
  {
    if m < n { Pow2Monotone(m, n - 1); }
  }

  lemma Pow2Values()
    ensures Pow2(1) == 2 && Pow2(8) == 0x100 && Pow2(16) == 0x1_0000 && Pow2(23) == 0x80_0000
    ensures Pow2(24) == 0x100_0000 && Pow2(32) == 0x1_0000_0000
  {
    assert Pow2(4) == 16;
    Pow2Add(4, 4);
    Pow2Add(8, 8);
    assert Pow2(7) == 128 by { assert Pow2(8) == 2 * Pow2(7); }
    Pow2Add(16, 7);
    Pow2Add(16, 8);
    Pow2Add(16, 16);
  }

  // ----- division facts, stated without division where possible

  /** Quotient and remainder are determined by the division equation. */
  lemma DivModUnique(a: int, d: int, q: int, r: int)
    requires d > 0 && a == d * q + r && 0 <= r < d
    ensures a / d == q && a % d == r
  {
    var e := a / d - q;
    assert a == d * (a / d) + a % d;
    assert d * e == r - a % d by { assert d * (a / d) - d * q == d * e; }
    assert e > 0 ==> d * e >= d;
    assert e < 0 ==> d * e <= -d;
  }

  lemma TimesMonotone(x: int, y: int, w: nat)
    requires x <= y
    ensures x * w <= y * w
  {
  }

  lemma ModOfMultiple(k: int, d: int)
    requires d > 0
    ensures (d * k) % d == 0 && (d * k) / d == k
  {
    DivModUnique(d * k, d, k, 0);
  }

  lemma DivNonNegative(a: nat, d: nat)
    requires d > 0
    ensures a / d >= 0
  {
  }

  // ----- bitwise or

  function Or(a: nat, b: nat): nat {
    if a == 0 then b else if b == 0 then a
    else 2 * Or(a / 2, b / 2) + (if a % 2 == 1 || b % 2 == 1 then 1 else 0)
  }

  /** Or is addition when the operands have no bit in common. */
  lemma {:induction false} OrIsPlus(a: nat, b: nat, t: nat)
    requires a % Pow2(t) == 0 && b < Pow2(t)
    ensures Or(a, b) == a + b && Or(b, a) == a + b
    decreases t
  {
    if a != 0 && b != 0 {
      var p := Pow2(t - 1);
      var q := a / Pow2(t);
      assert a == Pow2(t) * q;
      assert a == 2 * (p * q) by { assert (2 * p) * q == 2 * (p * q); }
      assert a / 2 == p * q;
      ModOfMultiple(q, p);
      OrIsPlus(a / 2, b / 2, t - 1);
    }
  }

  // ----- shifting one 32-bit limb by at most 32 bits

  const WORD := 0x1_0000_0000

  function ShlLow(x: nat, s: nat): nat { (x * Pow2(s)) % WORD }
  function ShlHigh(x: nat, s: nat): nat
    requires s <= 32
  {
    DivNonNegative(x, Pow2(32 - s));
    x / Pow2(32 - s)
  }

  lemma Pow2Splits(s: nat)
    requires s <= 32
    ensures Pow2(s) * Pow2(32 - s) == WORD
  {
    Pow2Add(s, 32 - s);
    Pow2Values();
  }

  lemma ShiftCore(x: nat, p: nat, c: nat, q: nat, r: nat)
    requires p > 0 && x == c * q + r && r < c
    ensures x * p == (p * c) * q + r * p
    ensures 0 <= r * p < p * c
  {
    assert (c * q + r) * p == (c * q) * p + r * p;
    assert (c * q) * p == (p * c) * q;
    TimesMonotone(r + 1, c, p);
  }

  lemma ShiftHalves(x: nat, p: nat, c: nat, q: nat, r: nat)
    requires p > 0 && c > 0 && p * c == WORD && x < WORD
    requires x == c * q + r && r < c
    ensures (x * p) % WORD == r * p && (r * p) % p == 0
    ensures r * p + q * WORD == x * p
    ensures q < p
  {
    ShiftCore(x, p, c, q, r);
    assert (p * c) * q == WORD * q;
    DivModUnique(x * p, WORD, q, r * p);
    ModOfMultiple(r, p);
    if q >= p { TimesMonotone(p, q, c); }
  }

  lemma ShiftOn(x: nat, p: nat, c: nat)
    requires p > 0 && c > 0 && p * c == WORD && x < WORD
    ensures (x * p) % WORD + (x / c) * WORD == x * p
    ensures ((x * p) % WORD) % p == 0 && (x * p) % WORD < WORD && x / c < p
  {
    var q, r := x / c, x % c;
    assert x == c * q + r && 0 <= r < c;
    DivNonNegative(x, c);
    ShiftHalves(x, p, c, q, r);
  }

  /** The two halves of a shifted limb: together they are the product, and they overlap with nothing. */
  lemma ShiftSplits(x: nat, s: nat)
    requires s <= 32 && x < WORD
    ensures ShlLow(x, s) + ShlHigh(x, s) * WORD == x * Pow2(s)
    ensures ShlLow(x, s) % Pow2(s) == 0 && ShlLow(x, s) < WORD
    ensures ShlHigh(x, s) < Pow2(s)
  {
    var p, c := Pow2(s), Pow2(32 - s);
    assert p * c == WORD by { Pow2Splits(s); }
    ShiftOn(x, p, c);
  }

  lemma TopDigit(low: nat, x: nat, from: nat, to: nat, w: nat)
    requires low < w && from <= x < to
    ensures from * w <= low + x * w < to * w
  {
    TimesMonotone(from, x, w);
    TimesMonotone(x + 1, to, w);
  }

  /** Leading digits decide: lower digits are worth less than one unit of this one. */
  lemma DigitDecides(low: nat, x: nat, y: nat, w: nat)
    requires low < w && x < y
    ensures x * w <= low + x * w < y * w
  {
    TimesMonotone(x + 1, y, w);
  }
}
