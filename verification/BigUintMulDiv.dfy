/** base_uint: multiplication and division. */
module BigUintMulDiv {
  import opened Bits
  import opened BigUint
  import opened BigUintShift

  // ----- multiplication by one limb

  lemma DigitCarry(lo: int, w: int, n: int, was: int, add: int, carry: int)
    requires lo + carry * w == was && n == carry + add
    ensures lo + (n % BASE) * w + (n / BASE) * (w * BASE) == was + add * w
  {
    var q, r := n / BASE, n % BASE;
    assert n == q * BASE + r;
    assert r * w + q * (w * BASE) == n * w;
    assert n * w == carry * w + add * w;
  }

  lemma ProductFits(x: Limb, y: Limb)
    ensures 0 <= x * y <= (BASE - 1) * (BASE - 1)
  {
    TimesMonotone(x, BASE - 1, y);
    TimesMonotone(y, BASE - 1, BASE - 1);
  }

  /** operator*=(uint32_t). */
  method MulWord(pn: array<Limb>, b32: Limb)
    modifies pn
    ensures Value(pn[..]) == (old(Value(pn[..])) * b32) % Weight(pn.Length)
  {
    ghost var a := pn[..];
    var carry, i := 0, 0;
    while i < pn.Length
      invariant 0 <= i <= pn.Length && 0 <= carry < BASE
      invariant forall j :: i <= j < pn.Length ==> pn[j] == a[j]
      invariant Val(pn[..], i) + carry * Weight(i) == Val(a, i) * b32
    {
      ProductFits(b32, pn[i]);
      var n := carry + b32 * pn[i];
      assert n < BASE * BASE;  // fits the 64-bit intermediate
      DigitCarry(Val(pn[..], i), Weight(i), n, Val(a, i) * b32, b32 * a[i], carry);
      assert Val(a, i + 1) * b32 == Val(a, i) * b32 + (b32 * a[i]) * Weight(i) by {
        SumTimes(Val(a, i), a[i], Weight(i), b32);
      }
      ghost var before := pn[..];
      var low: Limb := n % BASE;
      ValWrite(before, i, low);
      WeightStep(i);
      pn[i] := low;
      assert pn[..] == before[i := low];
      carry := n / BASE;
      i := i + 1;
    }
    ValBound(pn[..], i);
    TimesMonotone(0, Value(a), b32);
    Wrapped(Value(a) * b32, Value(pn[..]), carry, i);
  }

  lemma SumTimes(v: int, x: int, w: int, b: int)
    ensures (v + x * w) * b == v * b + (b * x) * w
  {
    assert (x * w) * b == (b * x) * w;
  }

  // ----- multiplication

  lemma RowStep(accLow: int, x: int, wj: int, bLow: int, d: int, wi: int, w: int, acc: int)
    requires w == wi * wj
    ensures (accLow + acc * w) + (x * wj) * (bLow + d * wi) == accLow + (x * wj) * bLow + (acc + x * d) * w
  {
    assert (x * wj) * (d * wi) == (x * d) * (wi * wj);
  }

  lemma Rewrap(m: int, w: int, carry: int, v: int, v': int, row: int, full: int, rest: int, total: int)
    requires v + m * w == total && v' + carry * w == v + row && full == row + rest * w
    ensures v' + (m + carry + rest) * w == total + full
  {
    assert (m + carry + rest) * w == m * w + carry * w + rest * w;
  }

  ghost predicate RowAt(a: seq<Limb>, acc: seq<Limb>, j: nat, x: Limb, b: seq<Limb>, i: nat, carry: nat)
    requires |acc| == |a| == |b| && i + j <= |a|
  {
    && carry < BASE
    && (forall l :: i + j <= l < |a| ==> acc[l] == a[l])
    && Val(acc, i + j) + carry * Weight(i + j) == Val(a, i + j) + (x * Weight(j)) * Val(b, i)
  }

  lemma RowAdvances(a: seq<Limb>, acc: seq<Limb>, j: nat, x: Limb, b: seq<Limb>, i: nat, carry: nat, n: nat, low: Limb)
    requires |acc| == |a| == |b| && i + j < |a| && RowAt(a, acc, j, x, b, i, carry)
    requires n == carry + acc[i + j] + x * b[i] && low == n % BASE && n / BASE < BASE
    ensures RowAt(a, acc[i + j := low], j, x, b, i + 1, n / BASE)
  {
    var l, w := i + j, Weight(i + j);
    var was := Val(a, l) + (x * Weight(j)) * Val(b, i);
    DigitCarry(Val(acc, l), w, n, was, a[l] + x * b[i], carry);
    assert w == Weight(i) * Weight(j) by { Pow2Add(32 * i, 32 * j); }
    RowStep(Val(a, l), x, Weight(j), Val(b, i), b[i], Weight(i), w, a[l]);
    assert Val(acc[l := low], l + 1) == Val(acc, l) + low * w by { ValWrite(acc, l, low); }
    assert Weight(l + 1) == w * BASE by { WeightStep(l); }
  }

  /** The inner loop: adds x times b, shifted by j limbs, and drops what does not fit the width. */
  method AddRow(acc: array<Limb>, j: nat, x: Limb, b: seq<Limb>) returns (ghost carried: nat)
    requires |b| == acc.Length && j < acc.Length
    modifies acc
    ensures Value(acc[..]) + carried * Weight(acc.Length) == old(Value(acc[..])) + (x * Weight(j)) * Val(b,
            acc.Length - j)
  {
    ghost var a := acc[..];
    var carry, i := 0, 0;
    assert (x * Weight(j)) * 0 == 0;
    while i + j < acc.Length
      invariant 0 <= i && i + j <= acc.Length && 0 <= carry
      invariant RowAt(a, acc[..], j, x, b, i, carry)
    {
      ProductFits(x, b[i]);
      var n := carry + acc[i + j] + x * b[i];
      assert n < BASE * BASE;  // fits the 64-bit intermediate
      var low: Limb := n % BASE;
      RowAdvances(a, acc[..], j, x, b, i, carry, n, low);
      ghost var before := acc[..];
      acc[i + j] := low;
      assert acc[..] == before[i + j := low];
      carry := n / BASE;
      i := i + 1;
    }
    carried := carry;
  }

  /** The part of a row that falls off the end is a multiple of 2^BITS. */
  lemma FullRow(b: seq<Limb>, j: nat, x: Limb) returns (rest: nat)
    requires j <= |b|
    ensures (x * Weight(j)) * Value(b) == (x * Weight(j)) * Val(b, |b| - j) + rest * Weight(|b|)
  {
    var k := |b| - j;
    var lo, hi, wk, wj := Val(b, k), Val(b[k..], j), Weight(k), Weight(j);
    TimesMonotone(0, x, hi);
    rest := x * hi;
    assert Value(b) == lo + wk * hi by { ValSplit(b, k, |b|); }
    assert Weight(|b|) == wk * wj by { Pow2Add(32 * k, 32 * j); }
    RowSplit(x, wj, lo, wk, hi);
  }

  lemma RowSplit(x: int, wj: int, lo: int, wk: int, hi: int)
    ensures (x * wj) * (lo + wk * hi) == (x * wj) * lo + (x * hi) * (wk * wj)
  {
    assert (x * wj) * (wk * hi) == (x * hi) * (wk * wj);
  }

  /** v is the product of the first j limbs of x with b, up to m times 2^BITS. */
  ghost predicate ProductAt(x: seq<Limb>, b: seq<Limb>, j: nat, v: nat, m: nat)
    requires j <= |x|
  {
    v + m * Weight(|x|) == Val(x, j) * Value(b)
  }

  lemma ProductStarts(x: seq<Limb>, b: seq<Limb>)
    ensures ProductAt(x, b, 0, 0, 0)
  {
  }

  lemma RowAdded(x: seq<Limb>, b: seq<Limb>, j: nat, m: nat, v: nat, v': nat, carried: nat) returns (m': nat)
    requires |x| == |b| && j < |x| && ProductAt(x, b, j, v, m)
    requires v' + carried * Weight(|x|) == v + (x[j] * Weight(j)) * Val(b, |x| - j)
    ensures ProductAt(x, b, j + 1, v', m')
  {
    var rest := FullRow(b, j, x[j]);
    var full := (x[j] * Weight(j)) * Value(b);
    Rewrap(m, Weight(|x|), carried, v, v', (x[j] * Weight(j)) * Val(b, |x| - j), full, rest, Val(x, j) * Value(b));
    m' := m + carried + rest;
  }

  lemma ProductEnds(x: seq<Limb>, b: seq<Limb>, a: seq<Limb>, m: nat)
    requires |a| == |x| && ProductAt(x, b, |x|, Value(a), m)
    ensures Value(a) == (Value(x) * Value(b)) % Weight(|x|)
  {
    ValBound(a, |a|);
    TimesMonotone(0, Value(x), Value(b));
    Wrapped(Value(x) * Value(b), Value(a), m, |x|);
  }

  /** `*this = a`. */
  method CopyInto(pn: array<Limb>, a: seq<Limb>)
    requires |a| == pn.Length
    modifies pn
    ensures pn[..] == a
  {
    for i := 0 to pn.Length
      invariant pn[..i] == a[..i]
    {
      pn[i] := a[i];
    }
  }

  /** operator*=. */
  method MulAssign(pn: array<Limb>, b: seq<Limb>)
    requires |b| == pn.Length
    modifies pn
    ensures Value(pn[..]) == (old(Value(pn[..])) * Value(b)) % Weight(pn.Length)
  {
    ghost var x := pn[..];
    var a := new Limb[pn.Length](_ => 0);
    ghost var m := MulRows(a, pn[..], b);
    ProductEnds(x, b, a[..], m);
    CopyInto(pn, a[..]);
  }

  /** The outer loop over the limbs of the left operand. */
  method MulRows(a: array<Limb>, x: seq<Limb>, b: seq<Limb>) returns (ghost m: nat)
    requires |x| == |b| == a.Length && forall i :: 0 <= i < a.Length ==> a[i] == 0
    modifies a
    ensures ProductAt(x, b, |x|, Value(a[..]), m)
  {
    ValZeros(a[..], a.Length, 0);
    ProductStarts(x, b);
    m := 0;
    var j := 0;
    while j < |x|
      invariant 0 <= j <= |x| && ProductAt(x, b, j, Value(a[..]), m)
    {
      ghost var v := Value(a[..]);
      ghost var carried := AddRow(a, j, x[j], b);
      m := RowAdded(x, b, j, m, v, Value(a[..]), carried);
      j := j + 1;
    }
  }

  // ----- setting one bit

  /** The low n bits of the limbs are zero. */
  ghost predicate LowZero(q: seq<Limb>, n: nat) {
    forall j :: 0 <= j < |q| ==> LimbLowZero(q[j], n - 32 * j)
  }

  ghost predicate LimbLowZero(x: Limb, n: int) {
    if n <= 0 then true else if n >= 32 then x == 0 else x % Pow2(n) == 0
  }

  lemma OrBit(x: Limb, t: nat)
    requires t < 32 && LimbLowZero(x, t + 1)
    ensures Or(x, Pow2(t)) == x + Pow2(t) < BASE
    ensures LimbLowZero(x + Pow2(t), t) && LimbLowZero(x, t)
  {
    if t == 31 {
      assert x == 0 && Pow2(31) < BASE by { assert Pow2(32) == BASE by { Pow2Values(); } }
      ModOfMultiple(1, Pow2(t));
    } else {
      var p, q := Pow2(t), x / Pow2(t + 1);
      assert x == (2 * p) * q;
      assert x == p * (2 * q);
      assert x + p == p * (2 * q + 1);
      ModOfMultiple(2 * q, p);
      ModOfMultiple(2 * q + 1, p);
      OrIsPlus(x, p, t + 1);
      assert (2 * p) * Pow2(31 - t) == BASE by { Pow2Splits(t + 1); }
      MultiplesLeaveRoom(x, 2 * p, Pow2(31 - t));
    }
  }

  lemma AddToLimb(q: seq<Limb>, l: nat, bit: nat, x: Limb)
    requires l < |q| && x == q[l] + bit
    ensures Value(q[l := x]) == Value(q) + bit * Weight(l)
  {
    var q' := q[l := x];
    assert Val(q', l + 1) == Val(q, l) + x * Weight(l) by { ValWrite(q, l, x); }
    assert (q[l] + bit) * Weight(l) == q[l] * Weight(l) + bit * Weight(l);
    SameTail(q', q, l + 1, |q|);
  }

  /** pn[shift / 32] |= 1U << (shift & 31) adds 2^shift when no bit up to that one is set. */
  lemma SetBit(q: seq<Limb>, shift: nat, x: Limb)
    requires LowZero(q, shift + 1) && shift < 32 * |q|
    requires x == Or(q[shift / 32], Pow2(shift % 32))
    ensures Value(q[shift / 32 := x]) == Value(q) + Pow2(shift)
    ensures LowZero(q[shift / 32 := x], shift)
  {
    var l, t := shift / 32, shift % 32;
    assert LimbLowZero(q[l], shift + 1 - 32 * l);
    OrBit(q[l], t);
    AddToLimb(q, l, Pow2(t), x);
    assert Pow2(shift) == Pow2(t) * Weight(l) by { Pow2Add(t, 32 * l); }
    SetBitLow(q, shift, x);
  }

  lemma SetBitLow(q: seq<Limb>, shift: nat, x: Limb)
    requires LowZero(q, shift + 1) && shift < 32 * |q| && LimbLowZero(x, shift % 32)
    ensures LowZero(q[shift / 32 := x], shift)
  {
    var q' := q[shift / 32 := x];
    forall j | 0 <= j < |q'| ensures LimbLowZero(q'[j], shift - 32 * j) {
      assert LimbLowZero(q[j], shift + 1 - 32 * j);
      assert j < shift / 32 ==> shift - 32 * j >= 32;
    }
  }

  lemma LowZeroLess(q: seq<Limb>, n: nat)
    requires LowZero(q, n + 1)
    ensures LowZero(q, n)
  {
    forall j | 0 <= j < |q| ensures LimbLowZero(q[j], n - 32 * j) {
      assert LimbLowZero(q[j], n + 1 - 32 * j);
      if 0 < n - 32 * j < 32 { OrBit(q[j], n - 32 * j); }
    }
  }

  // ----- division

  /** Shift-subtract division with `p` = 2^(shift+1) still to do: x = q*y + num and num < y*p. */
  ghost predicate Dividing(x: nat, y: nat, q: nat, num: nat, p: nat) {
    x == q * y + num && num < y * p
  }

  lemma DivideSubtract(x: nat, y: nat, q: nat, num: nat, h: nat)
    requires Dividing(x, y, q, num, 2 * h) && num >= y * h
    ensures Dividing(x, y, q + h, num - y * h, h)
  {
    assert (q + h) * y == q * y + y * h;
    assert y * (2 * h) == y * h + y * h;
  }

  lemma DivisionDone(x: nat, y: nat, q: nat, num: nat)
    requires Dividing(x, y, q, num, 1)
    ensures y > 0 && q == x / y && num == x % y
  {
    DivModUnique(x, y, q, num);
  }

  lemma DivisionStarts(x: nat, y: nat, numBits: nat, divBits: nat)
    requires 0 < divBits <= numBits && x < Pow2(numBits) && Pow2(divBits - 1) <= y
    ensures Dividing(x, y, 0, x, Pow2(numBits - divBits + 1))
  {
    var p := Pow2(numBits - divBits + 1);
    assert Pow2(numBits) == Pow2(divBits - 1) * p by { Pow2Add(divBits - 1, numBits - divBits + 1); }
    TimesMonotone(Pow2(divBits - 1), y, p);
  }

  lemma AlignedFits(y: nat, numBits: nat, divBits: nat, n: nat)
    requires 0 < divBits <= numBits <= 32 * n && y < Pow2(divBits)
    ensures y * Pow2(numBits - divBits) < Weight(n)
    ensures (y * Pow2(numBits - divBits)) % Weight(n) == y * Pow2(numBits - divBits)
  {
    var h := Pow2(numBits - divBits);
    assert y * h < Pow2(divBits) * h by { TimesMonotone(y + 1, Pow2(divBits), h); }
    assert Pow2(numBits) == Pow2(divBits) * h by { Pow2Add(divBits, numBits - divBits); }
    assert Pow2(numBits) <= Weight(n) by { Pow2Monotone(numBits, 32 * n); }
    SmallModulo(y, h, Weight(n));
  }

  lemma SmallModulo(y: nat, h: nat, w: nat)
    requires y * h < w
    ensures (y * h) % w == y * h
  {
    TimesMonotone(0, y, h);
    DivModUnique(y * h, w, 0, y * h);
  }

  lemma Halved(y: nat, h: nat)
    ensures (y * (2 * h)) / 2 == y * h
  {
    assert y * (2 * h) == 2 * (y * h);
  }

  /** operator/=.  Division by zero throws, after the quotient was already set to zero. */
  method DivAssign(pn: array<Limb>, b: seq<Limb>) returns (ok: bool)
    requires |b| == pn.Length
    modifies pn
    ensures ok <==> Value(b) != 0
    ensures Value(pn[..]) == if ok then old(Value(pn[..])) / Value(b) else 0
  {
    ghost var x, y := Value(pn[..]), Value(b);
    var div := new Limb[pn.Length];
    var num := new Limb[pn.Length];
    CopyInto(div, b);
    CopyInto(num, pn[..]);
    Clear(pn);
    var numBits := BitLength(num[..]);
    var divBits := BitLength(div[..]);
    if divBits == 0 { return false; }
    ok := true;
    if divBits > numBits {
      SmallerQuotient(x, y, numBits, divBits);
      return;
    }
    var shift := numBits - divBits;
    AlignedFits(y, numBits, divBits, pn.Length);
    DivisionStarts(x, y, numBits, divBits);
    ShiftLeft(div, shift);
    LongDivide(pn, num, div, shift, x, y);
  }

  /** The loop of operator/=, from the aligned divisor down to the divisor itself. */
  method LongDivide(pn: array<Limb>, num: array<Limb>, div: array<Limb>, start: nat, ghost x: nat, ghost y: nat)
    requires pn != num && pn != div && num != div && num.Length == div.Length == pn.Length && start < 32 * pn.Length
    requires LowZero(pn[..], start + 1) && Value(div[..]) == y * Pow2(start)
    requires Dividing(x, y, Value(pn[..]), Value(num[..]), Pow2(start + 1))
    modifies pn, num, div
    ensures y > 0 && Value(pn[..]) == x / y && Value(num[..]) == x % y
  {
    var shift: int := start;
    while shift >= 0
      invariant -1 <= shift < 32 * pn.Length
      invariant LowZero(pn[..], shift + 1)
      invariant Dividing(x, y, Value(pn[..]), Value(num[..]), Pow2(shift + 1))
      invariant shift >= 0 ==> Value(div[..]) == y * Pow2(shift)
    {
      DivideStep(pn, num, div, shift, x, y);
      ShiftRight(div, 1);
      if shift > 0 { Halved(y, Pow2(shift - 1)); }
      shift := shift - 1;
    }
    DivisionDone(x, y, Value(pn[..]), Value(num[..]));
  }

  lemma SmallerQuotient(x: nat, y: nat, numBits: nat, divBits: nat)
    requires numBits < divBits && Pow2(divBits - 1) <= y && (numBits == 0 ==> x == 0)
    requires (numBits > 0 ==> x < Pow2(numBits))
    ensures x / y == 0
  {
    Pow2Monotone(numBits, divBits - 1);
    DivModUnique(x, y, 0, x);
  }

  method Clear(pn: array<Limb>)
    modifies pn
    ensures Value(pn[..]) == 0 && forall j :: 0 <= j < pn.Length ==> pn[j] == 0
  {
    for i := 0 to pn.Length
      invariant forall j :: 0 <= j < i ==> pn[j] == 0
    {
      pn[i] := 0;
    }
    ValZeros(pn[..], pn.Length, 0);
  }

  /** One round: if the divisor fits, subtract it and set the quotient bit. */
  method DivideStep(pn: array<Limb>, num: array<Limb>, div: array<Limb>, shift: nat, ghost x: nat, ghost y: nat)
    requires pn != num && pn != div && num != div && num.Length == div.Length == pn.Length && shift < 32 * pn.Length
    requires LowZero(pn[..], shift + 1) && Value(div[..]) == y * Pow2(shift)
    requires Dividing(x, y, Value(pn[..]), Value(num[..]), Pow2(shift + 1))
    modifies pn, num
    ensures LowZero(pn[..], shift)
    ensures Dividing(x, y, Value(pn[..]), Value(num[..]), Pow2(shift))
  {
    var cmp := CompareTo(num[..], div[..]);
    if cmp >= 0 {
      DivideSubtract(x, y, Value(pn[..]), Value(num[..]), Pow2(shift));
      SubAssign(num, div[..]);
      ghost var before := pn[..];
      assert LimbLowZero(before[shift / 32], shift + 1 - 32 * (shift / 32));
      OrBit(before[shift / 32], shift % 32);
      var limb: Limb := Or(pn[shift / 32], Pow2(shift % 32));
      SetBit(before, shift, limb);
      pn[shift / 32] := limb;
      assert pn[..] == before[shift / 32 := limb];
    } else {
      LowZeroLess(pn[..], shift);
    }
  }
}
