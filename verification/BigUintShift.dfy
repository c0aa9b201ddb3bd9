/** base_uint: comparison, bit length and shifts. */
module BigUintShift {
  import opened Bits
  import opened BigUint

  lemma LimbDecides(a: seq<Limb>, b: seq<Limb>, i: nat)
    requires |a| == |b| && i < |a| && a[i] < b[i]
    requires forall j :: i < j < |a| ==> a[j] == b[j]
    ensures Value(a) < Value(b)
  {
    ValBound(a, i);
    DigitDecides(Val(a, i), a[i], b[i], Weight(i));
    SameTail(a, b, i + 1, |a|);
  }

  /** CompareTo: numeric ordering, from the most significant limb down. */
  method CompareTo(pn: seq<Limb>, b: seq<Limb>) returns (r: int)
    requires |pn| == |b|
    ensures r == if Value(pn) < Value(b) then -1 else if Value(pn) > Value(b) then 1 else 0
  {
    var i := |pn| - 1;
    while i >= 0
      invariant -1 <= i < |pn|
      invariant forall j :: i < j < |pn| ==> pn[j] == b[j]
    {
      if pn[i] < b[i] {
        LimbDecides(pn, b, i);
        return -1;
      }
      if pn[i] > b[i] {
        LimbDecides(b, pn, i);
        return 1;
      }
      i := i - 1;
    }
    assert pn == b;
    return 0;
  }

  /** The top non-zero limb and its top bit give the bit length of the number. */
  lemma TopBit(pn: seq<Limb>, pos: nat, nbits: nat)
    requires pos < |pn| && Pow2(nbits) <= pn[pos] < Pow2(nbits + 1)
    requires forall j :: pos < j < |pn| ==> pn[j] == 0
    ensures Pow2(32 * pos + nbits) <= Value(pn) < Pow2(32 * pos + nbits + 1)
  {
    var w := Weight(pos);
    assert Value(pn) == Val(pn, pos) + pn[pos] * w by { ValZeros(pn, |pn|, pos + 1); }
    assert Val(pn, pos) < w by { ValBound(pn, pos); }
    TopDigit(Val(pn, pos), pn[pos], Pow2(nbits), Pow2(nbits + 1), w);
    assert Pow2(32 * pos + nbits) == Pow2(nbits) * w by { Pow2Add(nbits, 32 * pos); }
    assert Pow2(32 * pos + nbits + 1) == Pow2(nbits + 1) * w by { Pow2Add(nbits + 1, 32 * pos); }
  }

  lemma BitTest(x: nat, n: nat)
    requires x < Pow2(n + 1)
    ensures (x / Pow2(n)) % 2 == (if x >= Pow2(n) then 1 else 0)
  {
    if x >= Pow2(n) {
      DivModUnique(x, Pow2(n), 1, x - Pow2(n));
    } else {
      DivModUnique(x, Pow2(n), 0, x);
    }
  }

  /** The inner loop of bits(): the highest bit of a limb. */
  method HighestBit(x: Limb) returns (nbits: nat)
    requires x != 0
    ensures nbits <= 31 && Pow2(nbits) <= x < Pow2(nbits + 1)
  {
    nbits := 31;
    assert x < Pow2(32) by { Pow2Values(); }
    while nbits > 0
      invariant 0 <= nbits <= 31 && x < Pow2(nbits + 1)
    {
      BitTest(x, nbits);
      if (x / Pow2(nbits)) % 2 == 1 { return; }
      nbits := nbits - 1;
    }
  }

  /** bits: the position of the highest bit set plus one, or zero. */
  method BitLength(pn: seq<Limb>) returns (r: nat)
    ensures r <= 32 * |pn|
    ensures r == 0 <==> Value(pn) == 0
    ensures r > 0 ==> Pow2(r - 1) <= Value(pn) < Pow2(r)
  {
    var pos := |pn| - 1;
    while pos >= 0
      invariant -1 <= pos < |pn|
      invariant forall j :: pos < j < |pn| ==> pn[j] == 0
    {
      if pn[pos] != 0 {
        var nbits := HighestBit(pn[pos]);
        TopBit(pn, pos, nbits);
        return 32 * pos + nbits + 1;
      }
      pos := pos - 1;
    }
    ValZeros(pn, |pn|, 0);
    return 0;
  }

  // ----- shifts by less than a limb, into one limb more

  ghost function At(a: seq<Limb>, i: int): nat { if 0 <= i < |a| then a[i] else 0 }

  lemma MultiplesLeaveRoom(x: nat, p: nat, c: nat)
    requires p > 0 && c > 0 && x % p == 0 && x < p * c
    ensures x + p <= p * c
  {
    var q := x / p;
    assert x == p * q;
    if q >= c { TimesMonotone(c, q, p); }
    TimesMonotone(q + 1, c, p);
  }

  /** What two neighbouring limbs contribute to one limb of the shifted number; `|` adds them. */
  lemma ShlFits(x: nat, y: nat, s: nat)
    requires s <= 32 && x < WORD && y < WORD
    ensures ShlLow(x, s) + ShlHigh(y, s) < WORD
    ensures Or(ShlHigh(y, s), ShlLow(x, s)) == ShlLow(x, s) + ShlHigh(y, s)
  {
    ShiftSplits(x, s);
    ShiftSplits(y, s);
    OrIsPlus(ShlLow(x, s), ShlHigh(y, s), s);
    assert Pow2(s) * Pow2(32 - s) == WORD by { Pow2Splits(s); }
    MultiplesLeaveRoom(ShlLow(x, s), Pow2(s), Pow2(32 - s));
  }

  ghost function ShlAt(a: seq<Limb>, s: nat, j: int): Limb
    requires s <= 32
  {
    ShlFits(At(a, j), At(a, j - 1), s);
    ShlLow(At(a, j), s) + ShlHigh(At(a, j - 1), s)
  }

  /** The limbs of `a` times 2^s, one limb longer than `a`. */
  ghost function Shl(a: seq<Limb>, s: nat): (r: seq<Limb>)
    requires s <= 32
    ensures |r| == |a| + 1 && forall j :: 0 <= j <= |a| ==> r[j] == ShlAt(a, s, j)
  {
    seq(|a| + 1, j requires 0 <= j <= |a| => ShlAt(a, s, j))
  }

  lemma ShlCore(v: int, v': int, h: int, w: int, w': int, x: int, x': int, p: int, low: int, high: int, d: int)
    requires v + h * w == x * p && low + high * BASE == d * p
    requires v' == v + (low + h) * w && w' == w * BASE && x' == x + d * w
    ensures v' + high * w' == x' * p
  {
    assert (low + h) * w == low * w + h * w;
    assert low * w + high * (w * BASE) == (low + high * BASE) * w;
    assert (d * p) * w == (d * w) * p;
  }

  lemma {:induction false} ShlPrefix(a: seq<Limb>, s: nat, j: nat)
    requires s <= 32 && j <= |a|
    ensures Val(Shl(a, s), j) + ShlHigh(At(a, j - 1), s) * Weight(j) == Val(a, j) * Pow2(s)
  {
    if j == 0 {
      assert ShlHigh(0, s) == 0;
    } else {
      ShlPrefix(a, s, j - 1);
      ShlPrefixStep(a, s, j - 1, ShlHigh(At(a, j - 2), s));
    }
  }

  lemma ShlPrefixStep(a: seq<Limb>, s: nat, j: nat, h: nat)
    requires s <= 32 && j < |a| && h == ShlHigh(At(a, j - 1), s)
    requires Val(Shl(a, s), j) + h * Weight(j) == Val(a, j) * Pow2(s)
    ensures Val(Shl(a, s), j + 1) + ShlHigh(a[j], s) * Weight(j + 1) == Val(a, j + 1) * Pow2(s)
  {
    var shl, low, high := Shl(a, s), ShlLow(a[j], s), ShlHigh(a[j], s);
    assert low + high * BASE == a[j] * Pow2(s) by { ShiftSplits(a[j], s); }
    assert Weight(j + 1) == Weight(j) * BASE by { WeightStep(j); }
    assert shl[j] == low + h;
    ShlCore(Val(shl, j), Val(shl, j + 1), h, Weight(j), Weight(j + 1), Val(a, j), Val(a, j + 1), Pow2(s), low, high,
            a[j]);
  }

  lemma ShlValue(a: seq<Limb>, s: nat)
    requires s <= 32
    ensures Value(Shl(a, s)) == Value(a) * Pow2(s)
  {
    ShlPrefix(a, s, |a|);
    assert ShlLow(0, s) == 0;
  }

  // ----- splitting a number at a limb boundary

  lemma ScaledSum(w: int, x: int, d: int, w1: int, w2: int)
    requires w1 == w * w2
    ensures w * x + d * w1 == w * (x + d * w2)
  {
    assert d * (w * w2) == w * (d * w2);
  }

  lemma {:induction false} ValSplit(s: seq<Limb>, m: nat, n: nat)
    requires m <= n <= |s|
    ensures Val(s, n) == Val(s, m) + Weight(m) * Val(s[m..], n - m)
  {
    if m < n {
      ValSplit(s, m, n - 1);
      assert Weight(n - 1) == Weight(m) * Weight(n - 1 - m) by { Pow2Add(32 * m, 32 * (n - 1 - m)); }
      ScaledSum(Weight(m), Val(s[m..], n - 1 - m), s[n - 1], Weight(n - 1), Weight(n - 1 - m));
    }
  }

  lemma DigitsModulo(s: seq<Limb>, m: nat)
    requires m <= |s|
    ensures Val(s, m) == Value(s) % Weight(m) && Value(s[m..]) == Value(s) / Weight(m)
  {
    ValSplit(s, m, |s|);
    ValBound(s, m);
    DivModUnique(Value(s), Weight(m), Value(s[m..]), Val(s, m));
  }

  // ----- operator<<=

  /** One limb of the result after the first i limbs were distributed; d counts from the first limb written. */
  ghost function Part(a: seq<Limb>, s: nat, d: int, i: nat): nat
    requires s <= 32
  {
    (if 0 <= d < i then ShlLow(At(a, d), s) else 0) + (if 0 < d <= i then ShlHigh(At(a, d - 1), s) else 0)
  }

  lemma PartStep(a: seq<Limb>, s: nat, d: int, i: nat)
    requires s <= 32 && i < |a|
    ensures d != i && d != i + 1 ==> Part(a, s, d, i + 1) == Part(a, s, d, i)
    ensures Part(a, s, i + 1, i) == 0 && Part(a, s, i + 1, i + 1) == ShlHigh(a[i], s) < WORD
    ensures Or(Part(a, s, i, i), ShlLow(a[i], s)) == Part(a, s, i, i + 1) < WORD
    ensures s == 0 ==> ShlHigh(a[i], s) == 0
  {
    ShlFits(a[i], At(a, i - 1), s);
    ShlFits(0, a[i], s);
    if i == 0 { assert Part(a, s, i, i) == 0; }
    if s == 0 { ShiftSplits(a[i], s); }
  }

  lemma PartWhole(a: seq<Limb>, s: nat, d: int)
    requires s <= 32 && d <= |a|
    ensures Part(a, s, d, |a|) == if d < 0 then 0 else ShlAt(a, s, d)
  {
    assert ShlLow(0, s) == 0 && ShlHigh(0, s) == 0;
  }

  lemma ModScaled(x: nat, m: nat, k: nat)
    requires m > 0 && k > 0
    ensures k * (x % m) == (x * k) % (k * m)
  {
    var q, v := x / m, x % m;
    assert x == m * q + v;
    assert x * k == (k * m) * q + k * v by { assert (m * q + v) * k == (m * q) * k + v * k; }
    assert 0 <= k * v < k * m by { TimesMonotone(v + 1, m, k); }
    DivModUnique(x * k, k * m, q, k * v);
  }

  ghost predicate MovedUp(a: seq<Limb>, r: seq<Limb>, k: nat, s: nat)
    requires s <= 32
  {
    |r| == |a| && forall j :: 0 <= j < |r| ==> r[j] == if j < k then 0 else ShlAt(a, s, j - k)
  }

  lemma MovedUpDigits(a: seq<Limb>, r: seq<Limb>, k: nat, s: nat)
    requires s <= 32 && k <= |a| && MovedUp(a, r, k, s)
    ensures Value(r) == Weight(k) * Val(Shl(a, s), |a| - k)
  {
    var m := |a| - k;
    ValZeros(r, k, 0);
    ValSplit(r, k, |a|);
    assert r[k..][..m] == Shl(a, s)[..m];
    ValPrefix(r[k..], Shl(a, s), m);
  }

  lemma Associate(x: int, y: int, z: int)
    ensures (x * y) * z == x * (y * z)
  {
  }

  lemma CutScaled(x: nat, m: nat, k: nat, v: nat, n: nat, xk: nat, r: nat)
    requires m > 0 && k > 0 && v == x % m && n == k * m && xk == x * k && r == k * v
    ensures n > 0 && r == xk % n
  {
    ModScaled(x, m, k);
    TimesMonotone(1, m, k);
  }

  lemma ScaledUp(a: seq<Limb>, k: nat, s: nat, p: nat)
    requires s <= 32 && p == Pow2(32 * k + s)
    ensures Value(Shl(a, s)) * Weight(k) == Value(a) * p
  {
    ShlValue(a, s);
    assert p == Pow2(s) * Weight(k) by { Pow2Add(s, 32 * k); }
    Associate(Value(a), Pow2(s), Weight(k));
  }

  /** Limbs moved up by k whole limbs, then cut to the width. */
  lemma MovedUpValue(a: seq<Limb>, r: seq<Limb>, k: nat, s: nat)
    requires s <= 32 && k <= |a| && MovedUp(a, r, k, s)
    ensures Value(r) == (Value(a) * Pow2(32 * k + s)) % Weight(|a|)
  {
    var m := |a| - k;
    var x, v, xk := Value(Shl(a, s)), Val(Shl(a, s), m), Value(a) * Pow2(32 * k + s);
    assert Value(r) == Weight(k) * v by { MovedUpDigits(a, r, k, s); }
    assert v == x % Weight(m) by { DigitsModulo(Shl(a, s), m); }
    assert Weight(|a|) == Weight(k) * Weight(m) by { Pow2Add(32 * k, 32 * m); }
    assert xk == x * Weight(k) by { ScaledUp(a, k, s, Pow2(32 * k + s)); }
    TimesMonotone(0, x, Weight(k));
    CutScaled(x, Weight(m), Weight(k), v, Weight(|a|), xk, Value(r));
  }

  lemma MovedOut(a: seq<Limb>, r: seq<Limb>, k: nat, s: nat)
    requires s <= 32 && k > |a| && MovedUp(a, r, k, s)
    ensures Value(r) == (Value(a) * Pow2(32 * k + s)) % Weight(|a|)
  {
    var e, x, w := 32 * (k - |a|) + s, Value(a), Weight(|a|);
    ValZeros(r, |a|, 0);
    assert Pow2(32 * k + s) == w * Pow2(e) by { Pow2Add(32 * |a|, e); }
    assert x * (w * Pow2(e)) == w * (x * Pow2(e));
    ModOfMultiple(x * Pow2(e), w);
  }

  ghost predicate Placed(a: seq<Limb>, k: nat, s: nat, i: nat, r: seq<Limb>)
    requires s <= 32
  {
    |r| == |a| && forall j :: 0 <= j < |r| ==> r[j] == Part(a, s, j - k, i)
  }

  /** One pass of the loop: the i-th limb goes to the limbs i+k+1 (its high bits) and i+k (the rest). */
  method PlaceLimb(pn: array<Limb>, a: seq<Limb>, k: nat, s: nat, i: nat)
    requires s < 32 && i < |a| && Placed(a, k, s, i, pn[..])
    modifies pn
    ensures Placed(a, k, s, i + 1, pn[..])
  {
    PartStep(a, s, 0, i);
    if i + k + 1 < pn.Length && s != 0 {
      pn[i + k + 1] := Or(pn[i + k + 1], ShlHigh(a[i], s));
    }
    if i + k < pn.Length {
      pn[i + k] := Or(pn[i + k], ShlLow(a[i], s));
    }
    forall j | 0 <= j < pn.Length ensures pn[j] == Part(a, s, j - k, i + 1) {
      PartStep(a, s, j - k, i);
    }
  }

  method ShiftLeft(pn: array<Limb>, shift: nat)
    modifies pn
    ensures Value(pn[..]) == (old(Value(pn[..])) * Pow2(shift)) % Weight(pn.Length)
  {
    var a := pn[..];
    for i := 0 to pn.Length
      invariant forall j :: 0 <= j < i ==> pn[j] == 0
    {
      pn[i] := 0;
    }
    var k, s := shift / 32, shift % 32;
    for i := 0 to pn.Length
      invariant Placed(a, k, s, i, pn[..])
    {
      PlaceLimb(pn, a, k, s, i);
    }
    forall j | 0 <= j < pn.Length ensures pn[j] == if j < k then 0 else ShlAt(a, s, j - k) { PartWhole(a, s, j - k); }
    if k <= pn.Length {
      MovedUpValue(a, pn[..], k, s);
    } else {
      MovedOut(a, pn[..], k, s);
    }
  }

  // ----- operator>>=

  ghost predicate PlacedDown(a: seq<Limb>, k: nat, t: nat, i: nat, r: seq<Limb>)
    requires t <= 32
  {
    |r| == |a| && forall j :: 0 <= j < |r| ==> r[j] == Part(a, t, j + k + 1, i)
  }

  /** One pass: shifting right by s puts the limbs of the shift left by t = 32 - s one limb lower. */
  method PlaceLimbDown(pn: array<Limb>, a: seq<Limb>, k: nat, s: nat, i: nat)
    requires s < 32 && i < |a| && PlacedDown(a, k, 32 - s, i, pn[..])
    modifies pn
    ensures PlacedDown(a, k, 32 - s, i + 1, pn[..])
  {
    PartStep(a, 32 - s, 0, i);
    ShiftByWord(a[i]);
    if i - k - 1 >= 0 && s != 0 {
      pn[i - k - 1] := Or(pn[i - k - 1], ShlLow(a[i], 32 - s));
    }
    if i - k >= 0 {
      pn[i - k] := Or(pn[i - k], a[i] / Pow2(s));
    }
    forall j | 0 <= j < pn.Length ensures pn[j] == Part(a, 32 - s, j + k + 1, i + 1) {
      PartStep(a, 32 - s, j + k + 1, i);
    }
  }

  lemma ShiftByWord(x: Limb)
    ensures ShlLow(x, 32) == 0 && ShlHigh(x, 32) == x
  {
    Pow2Values();
  }

  lemma DivideCommonFactor(x: nat, p: nat, d: nat)
    requires p > 0 && d > 0
    ensures (x * p) / (d * p) == x / d
  {
    var q, r := x / d, x % d;
    assert x == d * q + r;
    assert x * p == (d * p) * q + r * p by { assert (d * q + r) * p == (d * q) * p + r * p; }
    assert 0 <= r * p < d * p by { TimesMonotone(r + 1, d, p); }
    DivModUnique(x * p, d * p, q, r * p);
  }

  lemma MovedDown(a: seq<Limb>, r: seq<Limb>, k: nat, t: nat)
    requires t <= 32 && k < |a| && |r| == |a|
    requires forall j :: 0 <= j < |r| ==> r[j] == if j + k + 1 <= |a| then ShlAt(a, t, j + k + 1) else 0
    ensures Value(r) == Value(a) / Pow2(32 * (k + 1) - t)
  {
    var m := k + 1;
    MovedDownDigits(a, r, k, t);
    DigitsModulo(Shl(a, t), m);
    ShlValue(a, t);
    assert Weight(m) == Pow2(32 * m - t) * Pow2(t) by { Pow2Add(32 * m - t, t); }
    DivideCommonFactor(Value(a), Pow2(t), Pow2(32 * m - t));
  }

  lemma MovedDownDigits(a: seq<Limb>, r: seq<Limb>, k: nat, t: nat)
    requires t <= 32 && k < |a| && |r| == |a|
    requires forall j :: 0 <= j < |r| ==> r[j] == if j + k + 1 <= |a| then ShlAt(a, t, j + k + 1) else 0
    ensures Value(r) == Value(Shl(a, t)[k + 1..])
  {
    var n, high := |a| - k, Shl(a, t)[k + 1..];
    ValZeros(r, |r|, n);
    assert r[..n] == high[..n];
    ValPrefix(r, high, n);
  }

  lemma ShiftedToNothing(a: seq<Limb>, shift: nat)
    requires shift >= 32 * |a|
    ensures Value(a) / Pow2(shift) == 0
  {
    ValBound(a, |a|);
    Pow2Monotone(32 * |a|, shift);
    DivModUnique(Value(a), Pow2(shift), 0, Value(a));
  }

  method ShiftRight(pn: array<Limb>, shift: nat)
    modifies pn
    ensures Value(pn[..]) == old(Value(pn[..])) / Pow2(shift)
  {
    var a := pn[..];
    for i := 0 to pn.Length
      invariant forall j :: 0 <= j < i ==> pn[j] == 0
    {
      pn[i] := 0;
    }
    var k, s := shift / 32, shift % 32;
    for i := 0 to pn.Length
      invariant PlacedDown(a, k, 32 - s, i, pn[..])
    {
      PlaceLimbDown(pn, a, k, s, i);
    }
    if k < pn.Length {
      forall j | 0 <= j < pn.Length ensures pn[j] == if j + k + 1 <= |a| then ShlAt(a, 32 - s, j + k + 1) else 0 {
        if j + k + 1 <= |a| { PartWhole(a, 32 - s, j + k + 1); }
      }
      MovedDown(a, pn[..], k, 32 - s);
    } else {
      ValZeros(pn[..], pn.Length, 0);
      ShiftedToNothing(a, shift);
    }
  }
}
