/** Numbers written in a base, most significant digit first. */
module Radix {

  function Pow(b: nat, n: nat): (p: nat)
    ensures b > 0 ==> p > 0
  {
    if n == 0 then 1 else PowStep(b, Pow(b, n - 1))
  }

  function PowStep(b: nat, p: nat): (r: nat)
    ensures b > 0 && p > 0 ==> r > 0
  {
    Positive(b, p);
    b * p
  }

  lemma Positive(b: nat, p: nat)
    ensures b > 0 && p > 0 ==> b * p > 0
    ensures b * p >= 0
  {
  }

  lemma {:induction false} PowAdd(b: nat, m: nat, n: nat)
    ensures Pow(b, m + n) == Pow(b, m) * Pow(b, n)
  {
    if m == 0 {
    } else {
      PowAdd(b, m - 1, n);
      assert Pow(b, m + n) == b * Pow(b, m - 1 + n);
      Associate(b, Pow(b, m - 1), Pow(b, n));
    }
  }

  lemma Associate(x: int, y: int, z: int)
    ensures x * (y * z) == (x * y) * z
  {
  }

  lemma {:induction false} PowPow(b: nat, m: nat, n: nat)
    ensures Pow(Pow(b, m), n) == Pow(b, m * n)
  {
    if n == 0 {
      assert m * n == 0;
    } else {
      PowPow(b, m, n - 1);
      Distribute(m, n);
      PowAdd(b, m, m * (n - 1));
    }
  }

  lemma Distribute(m: nat, n: nat)
    requires n > 0
    ensures m * n == m + m * (n - 1) && m * (n - 1) >= 0
  {
  }

  /** Larger base, larger power. */
  lemma {:induction false} PowBase(a: nat, b: nat, n: nat)
    requires a <= b
    ensures Pow(a, n) <= Pow(b, n)
    ensures a < b && n > 0 && b > 0 ==> Pow(a, n) < Pow(b, n)
  {
    if n > 0 {
      PowBase(a, b, n - 1);
      ProductGrows(a, b, Pow(a, n - 1), Pow(b, n - 1));
    }
  }

  lemma ProductGrows(a: nat, b: nat, p: nat, q: nat)
    requires a <= b && p <= q
    ensures a * p <= b * q
    ensures a < b && q > 0 ==> a * p < b * q
  {
    assert b * q - a * p == (b - a) * q + a * (q - p);
    assert (b - a) * q >= 0 && a * (q - p) >= 0;
    if a < b && q > 0 { assert (b - a) * q > 0; }
  }

  /** Larger exponent, larger power. */
  lemma PowGrows(b: nat, m: nat, n: nat)
    requires b > 0 && m <= n
    ensures Pow(b, m) <= Pow(b, n)
  {
    PowAdd(b, m, n - m);
    ProductGrows(1, Pow(b, n - m), Pow(b, m), Pow(b, m));
  }

  lemma PowOrder(b: nat, m: nat, n: nat)
    requires b > 1 && Pow(b, m) < Pow(b, n)
    ensures m < n
  {
    if n <= m { PowGrows(b, n, m); }
  }

  // ----- values and digits

  ghost predicate AllDigits(s: seq<int>, b: nat) { forall i :: 0 <= i < |s| ==> 0 <= s[i] < b }

  function Value(s: seq<int>, b: nat): int {
    if s == [] then 0 else Value(s[..|s| - 1], b) * b + s[|s| - 1]
  }

  /** No leading zero. */
  predicate Canonical(s: seq<int>) { s == [] || s[0] != 0 }

  function Digits(v: nat, b: nat): (s: seq<int>)
    requires b > 1
    ensures Canonical(s) && (s == [] <==> v == 0)
    decreases v
  {
    if v == 0 then [] else QuotientSmaller(v, b); Digits(v / b, b) + [v % b]
  }

  lemma QuotientSmaller(v: nat, b: nat)
    requires v > 0 && b > 1
    ensures 0 <= v / b < v
  {
    var q := v / b;
    assert v == q * b + v % b;
    if q >= v { ProductGrows(2, b, v, q); }
  }

  lemma ValueAppend(s: seq<int>, d: int, b: nat)
    ensures Value(s + [d], b) == Value(s, b) * b + d
  {
    assert (s + [d])[..|s|] == s;
  }

  lemma {:induction false} DigitsValue(v: nat, b: nat)
    requires b > 1
    ensures AllDigits(Digits(v, b), b) && Value(Digits(v, b), b) == v
    decreases v
  {
    if v > 0 {
      QuotientSmaller(v, b);
      var q, r := v / b, v % b;
      assert v == q * b + r && 0 <= r < b;
      DigitsValue(q, b);
      ValueAppend(Digits(q, b), r, b);
    }
  }

  lemma {:induction false} ValueBounds(s: seq<int>, b: nat)
    requires AllDigits(s, b) && b > 0
    ensures 0 <= Value(s, b) < Pow(b, |s|)
    ensures Canonical(s) && s != [] ==> Value(s, b) > 0
  {
    if s != [] {
      var l := |s| - 1;
      ValueBounds(s[..l], b);
      StepBound(Value(s[..l], b), b, s[l], Pow(b, l));
      assert l > 0 ==> s[..l][0] == s[0];
    }
  }

  lemma StepBound(v: nat, b: nat, d: nat, p: nat)
    requires v < p && d < b
    ensures 0 <= v * b + d < b * p
    ensures v > 0 || d > 0 ==> v * b + d > 0
  {
    ProductGrows(v + 1, p, b, b);
    assert (v + 1) * b == v * b + b;
    if v > 0 { ProductGrows(1, v, b, b); }
  }

  /** Canonical digits are the digits of their value. */
  lemma {:induction false} ValueDigits(s: seq<int>, b: nat)
    requires AllDigits(s, b) && Canonical(s) && b > 1
    ensures Value(s, b) >= 0 && Digits(Value(s, b), b) == s
  {
    ValueBounds(s, b);
    if s != [] {
      var l := |s| - 1;
      assert l > 0 ==> s[..l][0] == s[0];
      ValueBounds(s[..l], b);
      ValueDigits(s[..l], b);
      DivMod(Value(s[..l], b), b, s[l]);
      assert s == s[..l] + [s[l]];
    }
  }

  lemma DivMod(q: nat, b: nat, r: nat)
    requires r < b
    ensures (q * b + r) / b == q && (q * b + r) % b == r
  {
    var v := q * b + r;
    SameDivision(q, r, v / b, v % b, b);
  }

  lemma SameDivision(q: nat, r: nat, q': int, r': int, b: nat)
    requires q * b + r == q' * b + r' && r < b && 0 <= r' < b && q' >= 0
    ensures q == q' && r == r'
  {
    if q < q' {
      ProductGrows(q + 1, q', b, b);
    } else if q' < q {
      ProductGrows(q' + 1, q, b, b);
    }
  }

  /** The number of digits is the least that has room for the value. */
  lemma CanonicalLength(s: seq<int>, b: nat, n: nat)
    requires AllDigits(s, b) && Canonical(s) && b > 1 && Value(s, b) < Pow(b, n)
    ensures |s| <= n
  {
    if |s| > n {
      LeadingPlace(s, b);
      PowGrows(b, n, |s| - 1);
    }
  }

  lemma {:induction false} LeadingPlace(s: seq<int>, b: nat)
    requires AllDigits(s, b) && Canonical(s) && s != [] && b > 0
    ensures Value(s, b) >= Pow(b, |s| - 1)
  {
    var l := |s| - 1;
    if l > 0 {
      assert s[..l][0] == s[0];
      LeadingPlace(s[..l], b);
      PlaceUp(Pow(b, l - 1), Value(s[..l], b), b, s[l]);
    } else {
      assert s[..0] == [];
    }
  }

  lemma PlaceUp(p: nat, v: nat, b: nat, d: nat)
    requires p <= v
    ensures b * p <= v * b + d
  {
    ProductGrows(p, v, b, b);
  }

  /** Zeroes in front change nothing. */
  lemma {:induction false} LeadingZeroes(s: seq<int>, k: nat, b: nat)
    requires k <= |s| && forall i :: 0 <= i < k ==> s[i] == 0
    ensures Value(s, b) == Value(s[k..], b)
  {
    if s == [] {
    } else if k == |s| {
      LeadingZeroes(s[..k - 1], k - 1, b);
      assert s[..k - 1][k - 1..] == [] == s[k..];
    } else {
      var l := |s| - 1;
      LeadingZeroes(s[..l], k, b);
      assert s[..l][k..] == s[k..][..l - k];
    }
  }
}
