/**
 base_uint: big unsigned integers of any width, stored as 32-bit limbs, least significant first.

 Every operator works in place on the limb array `pn`; a read-only operand is passed as the sequence of its
 limbs.  The number a limb sequence stands for is `Value`, and all contracts are about that number.
 */
module BigUint {
  import opened Bits

  const BASE := 0x1_0000_0000

  type Limb = x: int | 0 <= x < BASE

  // ----- the number represented

  ghost function Weight(n: nat): nat { Pow2(32 * n) }

  ghost function Val(s: seq<Limb>, n: nat): nat
    requires n <= |s|
  {
    if n == 0 then 0 else
      TimesMonotone(0, s[n - 1], Weight(n - 1));
      Val(s, n - 1) + s[n - 1] * Weight(n - 1)
  }

  ghost function Value(s: seq<Limb>): nat { Val(s, |s|) }

  lemma WeightStep(n: nat)
    ensures Weight(n) > 0
    ensures Weight(n + 1) == Weight(n) * BASE
  {
    Pow2Add(32 * n, 32);
    Pow2Values();
  }

  lemma {:induction false} ValBound(s: seq<Limb>, n: nat)
    requires n <= |s|
    ensures Val(s, n) < Weight(n)
  {
    if n > 0 {
      ValBound(s, n - 1);
      WeightStep(n - 1);
      TimesMonotone(s[n - 1], BASE - 1, Weight(n - 1));
    }
  }

  lemma {:induction false} ValPrefix(s: seq<Limb>, t: seq<Limb>, n: nat)
    requires n <= |s| && n <= |t| && s[..n] == t[..n]
    ensures Val(s, n) == Val(t, n)
  {
    if n > 0 {
      assert s[..n - 1] == s[..n][..n - 1] == t[..n - 1];
      assert s[n - 1] == s[..n][n - 1] == t[n - 1];
      ValPrefix(s, t, n - 1);
    }
  }

  /** Writing limb i leaves the lower part alone and fixes the part up to i. */
  lemma ValWrite(s: seq<Limb>, i: nat, x: Limb)
    requires i < |s|
    ensures Val(s[i := x], i) == Val(s, i)
    ensures Val(s[i := x], i + 1) == Val(s, i) + x * Weight(i)
  {
    assert s[i := x][..i] == s[..i];
    ValPrefix(s[i := x], s, i);
  }

  lemma {:induction false} ValZeros(s: seq<Limb>, n: nat, from: nat)
    requires from <= n <= |s| && forall i :: from <= i < n ==> s[i] == 0
    ensures Val(s, n) == Val(s, from)
  {
    if from < n { ValZeros(s, n - 1, from); }
  }

  /** A number that differs from x by a multiple of 2^BITS and fits the width is x modulo 2^BITS. */
  lemma Wrapped(x: nat, v: nat, carry: int, n: nat)
    requires v < Weight(n) && v + carry * Weight(n) == x
    ensures v == x % Weight(n)
  {
    WeightStep(n);
    DivModUnique(x, Weight(n), carry, v);
  }

  // ----- addition, complement, negation

  lemma AddStep(lo: int, a: int, b: int, carry: int, n: int, w: int, va: int, vb: int)
    requires lo + carry * w == va + vb
    requires n == carry + a + b
    ensures lo + (n % BASE) * w + (n / BASE) * (w * BASE) == (va + a * w) + (vb + b * w)
  {
    var q, r := n / BASE, n % BASE;
    assert n == q * BASE + r;
    assert r * w + q * (w * BASE) == n * w;
    assert n * w == carry * w + a * w + b * w;
  }

  /** operator+=. */
  method AddAssign(pn: array<Limb>, b: seq<Limb>)
    requires |b| == pn.Length
    modifies pn
    ensures Value(pn[..]) == (old(Value(pn[..])) + Value(b)) % Weight(pn.Length)
  {
    ghost var a := pn[..];
    var carry, i := 0, 0;
    while i < pn.Length
      invariant 0 <= i <= pn.Length && 0 <= carry <= 1
      invariant forall j :: i <= j < pn.Length ==> pn[j] == a[j]
      invariant Val(pn[..], i) + carry * Weight(i) == Val(a, i) + Val(b, i)
    {
      var n := carry + pn[i] + b[i];
      AddStep(Val(pn[..], i), a[i], b[i], carry, n, Weight(i), Val(a, i), Val(b, i));
      ghost var before := pn[..];
      var low: Limb := n % BASE;
      ValWrite(before, i, low);
      WeightStep(i);
      pn[i] := low;
      assert pn[..] == before[i := low];
      carry := n / BASE;
      i := i + 1;
    }
    ValBound(pn[..], i);
    Wrapped(Value(a) + Value(b), Value(pn[..]), carry, i);
  }

  lemma Distribute(x: int, y: int, w: int)
    ensures (x - y) * w == x * w - y * w
  {
  }

  lemma {:induction false} ComplementValue(s: seq<Limb>, t: seq<Limb>, n: nat)
    requires n <= |s| && n <= |t| && forall i :: 0 <= i < n ==> t[i] == BASE - 1 - s[i]
    ensures Val(t, n) == Weight(n) - 1 - Val(s, n)
  {
    if n > 0 {
      ComplementValue(s, t, n - 1);
      WeightStep(n - 1);
      assert t[n - 1] == BASE - 1 - s[n - 1];
      Distribute(BASE - 1, s[n - 1], Weight(n - 1));
    }
  }

  /** operator~. */
  method Complement(pn: seq<Limb>) returns (ret: array<Limb>)
    ensures fresh(ret) && ret.Length == |pn|
    ensures Value(ret[..]) == Weight(|pn|) - 1 - Value(pn)
  {
    ret := new Limb[|pn|](_ => 0);
    for i := 0 to |pn|
      invariant forall j :: 0 <= j < i ==> ret[j] == BASE - 1 - pn[j]
    {
      ret[i] := BASE - 1 - pn[i];
    }
    ComplementValue(pn, ret[..], |pn|);
  }

  /** operator++: stops at the first limb that does not wrap. */
  method Increment(pn: array<Limb>)
    modifies pn
    ensures Value(pn[..]) == (old(Value(pn[..])) + 1) % Weight(pn.Length)
  {
    ghost var a := pn[..];
    var i := 0;
    while i < pn.Length
      invariant 0 <= i <= pn.Length
      invariant forall j :: i <= j < pn.Length ==> pn[j] == a[j]
      invariant Val(pn[..], i) + Weight(i) == Val(a, i) + 1
      invariant Val(a, i) == Weight(i) - 1
    {
      ghost var before := pn[..];
      var x: Limb := if pn[i] == BASE - 1 then 0 else pn[i] + 1;
      ValWrite(pn[..], i, x);
      WeightStep(i);
      pn[i] := x;
      assert pn[..] == before[i := x];
      if x != 0 {
        assert (a[i] + 1) * Weight(i) == a[i] * Weight(i) + Weight(i);
        SameTail(pn[..], a, i + 1, pn.Length);
        assert Value(pn[..]) == Value(a) + 1;
        ValBound(pn[..], pn.Length);
        Wrapped(Value(a) + 1, Value(pn[..]), 0, pn.Length);
        return;
      }
      assert a[i] * Weight(i) == BASE * Weight(i) - Weight(i);
      i := i + 1;
    }
    ValBound(pn[..], i);
    Wrapped(Value(a) + 1, Value(pn[..]), 1, i);
  }

  /** Equal limbs from n on contribute equally. */
  lemma {:induction false} SameTail(s: seq<Limb>, t: seq<Limb>, n: nat, m: nat)
    requires |s| == |t| && n <= m <= |s| && forall j :: n <= j < m ==> s[j] == t[j]
    ensures Val(s, m) - Val(t, m) == Val(s, n) - Val(t, n)
  {
    if n < m { SameTail(s, t, n, m - 1); }
  }

  /** operator--: stops at the first limb that does not wrap. */
  method Decrement(pn: array<Limb>)
    modifies pn
    ensures Value(pn[..]) == (old(Value(pn[..])) + Weight(pn.Length) - 1) % Weight(pn.Length)
  {
    ghost var a := pn[..];
    var i := 0;
    while i < pn.Length
      invariant 0 <= i <= pn.Length
      invariant forall j :: i <= j < pn.Length ==> pn[j] == a[j]
      invariant Val(pn[..], i) == Weight(i) - 1 && Val(a, i) == 0
    {
      ghost var before := pn[..];
      var x: Limb := if pn[i] == 0 then BASE - 1 else pn[i] - 1;
      ValWrite(pn[..], i, x);
      WeightStep(i);
      pn[i] := x;
      assert pn[..] == before[i := x];
      if x != BASE - 1 {
        assert (a[i] - 1) * Weight(i) == a[i] * Weight(i) - Weight(i);
        SameTail(pn[..], a, i + 1, pn.Length);
        assert Value(pn[..]) == Value(a) - 1;
        ValBound(pn[..], pn.Length);
        Wrapped(Value(a) + Weight(pn.Length) - 1, Value(pn[..]), 1, pn.Length);
        return;
      }
      assert x * Weight(i) == BASE * Weight(i) - Weight(i);
      i := i + 1;
    }
    ValBound(pn[..], i);
    Wrapped(Value(a) + Weight(pn.Length) - 1, Value(pn[..]), 0, i);
  }

  /** operator-. */
  method Negate(pn: seq<Limb>) returns (ret: array<Limb>)
    ensures fresh(ret) && ret.Length == |pn|
    ensures Value(ret[..]) == (Weight(|pn|) - Value(pn)) % Weight(|pn|)
  {
    ret := Complement(pn);
    Increment(ret);
  }

  /** operator-=. */
  method SubAssign(pn: array<Limb>, b: seq<Limb>)
    requires |b| == pn.Length
    modifies pn
    ensures Value(pn[..]) == (old(Value(pn[..])) - Value(b)) % Weight(pn.Length)
    ensures old(Value(pn[..])) >= Value(b) ==> Value(pn[..]) == old(Value(pn[..])) - Value(b)
  {
    ghost var x, y, w := Value(pn[..]), Value(b), Weight(pn.Length);
    ValBound(pn[..], pn.Length);
    ValBound(b, pn.Length);
    var minus := Negate(b);
    ghost var m := Value(minus[..]);
    AddAssign(pn, minus[..]);
    SubtractByNegation(x, y, m, w);
  }

  lemma SubtractByNegation(x: nat, y: nat, m: nat, w: nat)
    requires x < w && y < w && m == (w - y) % w
    ensures (x + m) % w == (x - y) % w
    ensures x >= y ==> (x - y) % w == x - y
  {
    if y == 0 {
      DivModUnique(w - y, w, 1, 0);
      DivModUnique(x, w, 0, x);
    } else {
      DivModUnique(w - y, w, 0, w - y);
      if x >= y {
        DivModUnique(x + m, w, 1, x - y);
        DivModUnique(x - y, w, 0, x - y);
      } else {
        DivModUnique(x + m, w, 0, x + m);
        DivModUnique(x - y, w, -1, x + m);
      }
    }
  }
}
