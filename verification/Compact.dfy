module Compact {

  /**
   arith_uint256: the "compact" target encoding, and the proof of work of a target.

   A compact number has an 8-bit size, a sign bit and a 23-bit mantissa; it stands for
   mantissa * 256^(size - 3), rounded down when the size is below 3.
   */

  import opened Bits
  import opened BigUint
  import opened BigUintShift
  import opened BigUintMulDiv

  const WIDTH := 8

  type Compact = c: int | 0 <= c < 0x1_0000_0000

  function Size(c: Compact): nat { c / 0x100_0000 }
  function Mantissa(c: Compact): nat { c % 0x80_0000 }
  predicate Sign(c: Compact) { (c / 0x80_0000) % 2 == 1 }

  /** The unbounded number a compact target stands for, sign aside. */
  ghost function CompactValue(c: Compact): nat {
    Decoded(Size(c), Mantissa(c))
  }

  ghost function Decoded(size: nat, mantissa: nat): nat {
    if size <= 3 then DivNonNegative(mantissa, Pow2(8 * (3 - size))); mantissa / Pow2(8 * (3 - size))
    else TimesMonotone(0, mantissa, Pow2(8 * (size - 3))); mantissa * Pow2(8 * (size - 3))
  }

  // ----- SetCompact

  /** operator=(uint64_t). */
  method AssignWord(pn: array<Limb>, b: nat)
    requires pn.Length >= 2 && b < BASE * BASE
    modifies pn
    ensures Value(pn[..]) == b
  {
    pn[0] := b % BASE;
    pn[1] := b / BASE;
    for i := 2 to pn.Length
      invariant pn[0] == b % BASE && pn[1] == b / BASE
      invariant forall j :: 2 <= j < i ==> pn[j] == 0
    {
      pn[i] := 0;
    }
    ValZeros(pn[..], pn.Length, 2);
    assert Weight(0) == 1;
    assert Weight(1) == BASE by { WeightStep(0); }
    assert Val(pn[..], 1) == pn[0] * 1;
  }

  lemma SmallValue(v: nat)
    requires v < BASE
    ensures v < Pow2(256) && v % Pow2(256) == v
  {
    Pow2Values();
    Pow2Monotone(32, 256);
    DivModUnique(v, Pow2(256), 0, v);
  }

  lemma CompareProducts(word: nat, p: nat, f: nat, q: nat)
    requires q > 0
    ensures word >= p && f >= q ==> word * f >= p * q
    ensures word < p && f <= q ==> word * f < p * q
  {
    if word >= p && f >= q {
      TimesMonotone(p, word, q);
      TimesMonotone(q, f, word);
    }
    if word < p && f <= q {
      TimesMonotone(f, q, word);
      TimesMonotone(word + 1, p, q);
    }
  }

  lemma ProductReaches(word: nat, bits: nat, e: nat)
    requires bits <= 256
    ensures word >= Pow2(bits) && e >= 256 - bits ==> word * Pow2(e) >= Pow2(256)
    ensures word < Pow2(bits) && e <= 256 - bits ==> word * Pow2(e) < Pow2(256)
  {
    assert Pow2(bits) * Pow2(256 - bits) == Pow2(256) by { Pow2Add(bits, 256 - bits); }
    assert e >= 256 - bits ==> Pow2(e) >= Pow2(256 - bits) by { if e >= 256 - bits { Pow2Monotone(256 - bits, e); } }
    assert e <= 256 - bits ==> Pow2(e) <= Pow2(256 - bits) by { if e <= 256 - bits { Pow2Monotone(e, 256 - bits); } }
    CompareProducts(word, Pow2(bits), Pow2(e), Pow2(256 - bits));
  }

  /** The three overflow tests together say exactly that the number does not fit 256 bits. */
  lemma OverflowTest(word: nat, size: nat)
    requires word < 0x80_0000 && size > 3
    ensures word * Pow2(8 * (size - 3)) >= Pow2(256) <==>
            word != 0 && (size > 34 || (word > 0xff && size > 33) || (word > 0xffff && size > 32))
  {
    Pow2Values();
    var e := 8 * (size - 3);
    assert Pow2(0) == 1;
    assert word == 0 ==> word * Pow2(e) == 0;
    ProductReaches(word, 0, e);
    ProductReaches(word, 8, e);
    ProductReaches(word, 16, e);
    ProductReaches(word, 24, e);
  }

  method SetCompact(pn: array<Limb>, nCompact: Compact) returns (negative: bool, overflow: bool)
    requires pn.Length == WIDTH
    modifies pn
    ensures Value(pn[..]) == CompactValue(nCompact) % Pow2(256)
    ensures overflow <==> CompactValue(nCompact) >= Pow2(256)
    ensures negative <==> CompactValue(nCompact) != 0 && Sign(nCompact)
  {
    var nSize := nCompact / 0x100_0000;
    var nWord := nCompact % 0x80_0000;
    if nSize <= 3 {
      SmallQuotient(nWord, 8 * (3 - nSize));
      nWord := nWord / Pow2(8 * (3 - nSize));
      AssignWord(pn, nWord);
      SmallValue(nWord);
    } else {
      AssignWord(pn, nWord);
      ShiftLeft(pn, 8 * (nSize - 3));
      OverflowTest(nWord, nSize);
      ZeroProduct(nWord, 8 * (nSize - 3));
    }
    negative := nWord != 0 && (nCompact / 0x80_0000) % 2 == 1;
    overflow := nWord != 0 && (nSize > 34 || (nWord > 0xff && nSize > 33) || (nWord > 0xffff && nSize > 32));
  }

  lemma ZeroProduct(word: nat, e: nat)
    ensures word * Pow2(e) == 0 <==> word == 0
  {
    if word > 0 { TimesMonotone(1, word, Pow2(e)); }
  }

  lemma SmallQuotient(word: nat, e: nat)
    ensures 0 <= word / Pow2(e) <= word
  {
    var q := word / Pow2(e);
    DivNonNegative(word, Pow2(e));
    assert word == Pow2(e) * q + word % Pow2(e);
    TimesMonotone(1, Pow2(e), q);
  }

  // ----- the encoding, as a function on numbers

  function BitLen(x: nat): nat { if x == 0 then 0 else 1 + BitLen(x / 2) }

  lemma {:induction false} BitLenBounds(x: nat)
    requires x > 0
    ensures BitLen(x) > 0 && Pow2(BitLen(x) - 1) <= x < Pow2(BitLen(x))
  {
    if x / 2 > 0 { BitLenBounds(x / 2); }
  }

  lemma BitLenUnique(x: nat, b: nat)
    requires x > 0 && b > 0 && Pow2(b - 1) <= x < Pow2(b)
    ensures b == BitLen(x)
  {
    BitLenBounds(x);
    if b < BitLen(x) { Pow2Monotone(b, BitLen(x) - 1); }
    if b > BitLen(x) { Pow2Monotone(BitLen(x), b - 1); }
  }

  lemma {:induction false} BitLenMonotone(x: nat, y: nat)
    requires x <= y
    ensures BitLen(x) <= BitLen(y)
  {
    if x > 0 { BitLenMonotone(x / 2, y / 2); }
  }

  /** The number of bytes that leaves the top bit of the first byte free for the sign. */
  function SizeOf(x: nat): nat { if x == 0 then 0 else BitLen(x) / 8 + 1 }

  /** The leading three bytes of x when x has `size` bytes. */
  function Scaled(x: nat, size: nat): nat {
    if size <= 3 then TimesMonotone(0, x, Pow2(8 * (3 - size))); x * Pow2(8 * (3 - size))
    else DivNonNegative(x, Pow2(8 * (size - 3))); x / Pow2(8 * (size - 3))
  }

  lemma DivTwice(x: nat, d: nat, e: nat)
    requires d > 0 && e > 0
    ensures (x / d) / e == x / (d * e)
  {
    var q, r := x / d, x % d;
    DivNonNegative(x, d);
    var q2, r2 := q / e, q % e;
    assert x == d * q + r && q == e * q2 + r2;
    assert x == (d * e) * q2 + (d * r2 + r) by { assert d * (e * q2 + r2) == (d * e) * q2 + d * r2; }
    assert d * r2 + r < d * e by { TimesMonotone(r2 + 1, e, d); }
    assert d * r2 >= 0 by { TimesMonotone(0, r2, d); }
    DivModUnique(x, d * e, q2, d * r2 + r);
  }

  /** One more byte of size is one byte less of mantissa. */
  lemma ScaledNext(x: nat, size: nat)
    ensures Scaled(x, size) / 256 == Scaled(x, size + 1)
  {
    Pow2Values();
    if size < 3 {
      assert Pow2(8 * (3 - size)) == Pow2(8 * (2 - size)) * 256 by { Pow2Add(8 * (2 - size), 8); }
      assert x * (Pow2(8 * (2 - size)) * 256) == 256 * (x * Pow2(8 * (2 - size)));
    } else if size == 3 {
      assert Pow2(0) == 1;
    } else {
      assert Pow2(8 * (size - 2)) == Pow2(8 * (size - 3)) * 256 by { Pow2Add(8 * (size - 3), 8); }
      DivTwice(x, Pow2(8 * (size - 3)), 256);
    }
  }

  lemma QuotientBelow(x: nat, p: nat, d: nat)
    requires d > 0 && x < p * d
    ensures x / d < p
  {
    assert x == d * (x / d) + x % d;
    if x / d >= p { TimesMonotone(p, x / d, d); }
  }

  lemma QuotientAtLeast(x: nat, p: nat, d: nat)
    requires d > 0 && p * d <= x
    ensures p <= x / d
  {
    assert x == d * (x / d) + x % d;
    if x / d + 1 <= p { TimesMonotone(x / d + 1, p, d); }
  }

  /** Scaling moves the top bit from position b to position 24 + b - 8*size. */
  lemma ScaledBounds(x: nat, b: nat, size: nat)
    requires 8 * size <= 24 + b
    ensures x < Pow2(b) ==> Scaled(x, size) < Pow2(24 + b - 8 * size)
    ensures x >= Pow2(b) ==> Scaled(x, size) >= Pow2(24 + b - 8 * size)
  {
    if size <= 3 {
      var f := Pow2(8 * (3 - size));
      assert Pow2(24 + b - 8 * size) == Pow2(b) * f by { Pow2Add(b, 8 * (3 - size)); }
      CompareProducts(x, Pow2(b), f, f);
    } else {
      var d, p := Pow2(8 * (size - 3)), Pow2(24 + b - 8 * size);
      assert Pow2(b) == p * d by { Pow2Add(24 + b - 8 * size, 8 * (size - 3)); }
      if x < Pow2(b) { QuotientBelow(x, p, d); } else { QuotientAtLeast(x, p, d); }
    }
  }

  /** The leading bytes at the chosen size fit 23 bits, and above size 3 they use at least 16. */
  lemma MantissaFits(x: nat)
    ensures Scaled(x, SizeOf(x)) < 0x80_0000
    ensures SizeOf(x) > 3 ==> Scaled(x, SizeOf(x)) >= 0x8000
  {
    Pow2Values();
    if x > 0 {
      var b, size := BitLen(x), SizeOf(x);
      BitLenBounds(x);
      Pow2Monotone(b, 8 * size - 1);
      ScaledBounds(x, 8 * size - 1, size);
      if size > 3 {
        assert Pow2(15) == 0x8000 by { assert Pow2(16) == 2 * Pow2(15); }
        Pow2Monotone(8 * size - 9, b - 1);
        ScaledBounds(x, 8 * size - 9, size);
      }
    }
  }

  function Encoded(x: nat, negative: bool): nat {
    SizeOf(x) * 0x100_0000 + Scaled(x, SizeOf(x)) + if negative && Scaled(x, SizeOf(x)) != 0 then 0x80_0000 else 0
  }

  lemma SizeBound(x: nat)
    requires x < Pow2(256)
    ensures SizeOf(x) <= 33
  {
    if x > 0 {
      BitLenBounds(x);
      if BitLen(x) > 256 { Pow2Monotone(256, BitLen(x) - 1); }
    }
  }

  lemma Fields(size: nat, mantissa: nat, sign: bool, c: Compact)
    requires size < 256 && mantissa < 0x80_0000
    requires c == size * 0x100_0000 + mantissa + if sign then 0x80_0000 else 0
    ensures Size(c) == size && Mantissa(c) == mantissa && (Sign(c) <==> sign)
  {
  }

  lemma EncodedFields(x: nat, negative: bool)
    requires x < Pow2(256)
    ensures 0 <= Encoded(x, negative) < 0x1_0000_0000
    ensures Size(Encoded(x, negative)) == SizeOf(x)
    ensures Mantissa(Encoded(x, negative)) == Scaled(x, SizeOf(x))
    ensures Sign(Encoded(x, negative)) <==> negative && Scaled(x, SizeOf(x)) != 0
  {
    assert SizeOf(x) < 256 by { SizeBound(x); }
    assert Scaled(x, SizeOf(x)) < 0x80_0000 by { MantissaFits(x); }
    Fields(SizeOf(x), Scaled(x, SizeOf(x)), negative && Scaled(x, SizeOf(x)) != 0, Encoded(x, negative));
  }

  /** Known targets, below and above three bytes, and the byte that the sign takes. */
  lemma KnownTargets()
    ensures CompactValue(0x0112_3456) == 0x12 && CompactValue(0x0412_3456) == 0x1234_5600
    ensures CompactValue(0x0500_9234) == 0x9234_0000 && !Sign(0x0500_9234)
    ensures CompactValue(0x0492_3456) == 0x1234_5600 && Sign(0x0492_3456)
    ensures Encoded(0x80, false) == 0x0200_8000 && Encoded(0x1234_5600, true) == 0x0492_3456
  {
    Pow2Values();
    BitLenUnique(0x80, 8);
    assert Pow2(5) == 32;
    Pow2Add(24, 5);
    Pow2Add(24, 4);
    BitLenUnique(0x1234_5600, 29);
  }

  // ----- GetCompact

  /** GetLow64. */
  function GetLow64(pn: seq<Limb>): nat
    requires |pn| >= 2
  {
    pn[0] + pn[1] * BASE
  }

  lemma Low64(pn: seq<Limb>)
    requires |pn| >= 2 && Value(pn) < BASE * BASE
    ensures GetLow64(pn) == Value(pn)
  {
    TwoLimbs(pn);
    DigitsModulo(pn, 2);
    DivModUnique(Value(pn), BASE * BASE, 0, Value(pn));
  }

  lemma TwoLimbs(pn: seq<Limb>)
    requires |pn| >= 2
    ensures Val(pn, 2) == GetLow64(pn) && Weight(2) == BASE * BASE
  {
    assert Weight(0) == 1;
    assert Weight(1) == BASE by { WeightStep(0); }
    assert Weight(2) == BASE * BASE by { WeightStep(1); }
    assert Val(pn, 1) == pn[0] * 1;
  }

  lemma {:induction false} HighLimbCounts(pn: seq<Limb>, i: nat, n: nat)
    requires 2 <= i < n <= |pn| && pn[i] != 0
    ensures Val(pn, n) >= BASE * BASE
  {
    if i == n - 1 {
      assert Weight(i) >= Weight(2) by { Pow2Monotone(64, 32 * i); }
      TwoLimbs(pn);
      TimesMonotone(1, pn[i], Weight(i));
    } else {
      HighLimbCounts(pn, i, n - 1);
    }
  }

  /** EqualTo(uint64_t). */
  method EqualTo(pn: seq<Limb>, b: nat) returns (r: bool)
    requires |pn| >= 2 && b < BASE * BASE
    ensures r <==> Value(pn) == b
  {
    var i := |pn| - 1;
    while i >= 2
      invariant 1 <= i < |pn|
      invariant forall j :: i < j < |pn| ==> pn[j] == 0
    {
      if pn[i] != 0 {
        HighLimbCounts(pn, i, |pn|);
        return false;
      }
      i := i - 1;
    }
    ValZeros(pn, |pn|, 2);
    TwoLimbs(pn);
    if pn[1] != b / BASE { return false; }
    if pn[0] != b % BASE { return false; }
    return true;
  }

  lemma {:induction false} OrClearBit(x: nat, t: nat)
    requires (x / Pow2(t)) % 2 == 0
    ensures Or(x, Pow2(t)) == x + Pow2(t)
  {
    if x > 0 {
      if t > 0 {
        assert x / Pow2(t) == (x / 2) / Pow2(t - 1) by { DivTwice(x, 2, Pow2(t - 1)); }
        OrClearBit(x / 2, t - 1);
      } else {
        assert Or(x / 2, 0) == x / 2;
      }
    }
  }

  /** The three leading bytes, before the sign bit is looked at. */
  method LeadingBytes(pn: seq<Limb>, nSize: nat) returns (nCompact: nat)
    requires |pn| == WIDTH && nSize == (BitLen(Value(pn)) + 7) / 8
    ensures nCompact == Scaled(Value(pn), nSize) < 0x100_0000
    ensures nCompact >= 0x80_0000 <==> Value(pn) > 0 && BitLen(Value(pn)) % 8 == 0
  {
    ghost var x := Value(pn);
    LeadingBytesFit(x, BitLen(x), nSize);
    if nSize <= 3 {
      assert x * 1 <= x * Pow2(8 * (3 - nSize)) by { TimesMonotone(1, Pow2(8 * (3 - nSize)), x); }
      Low64(pn);
      nCompact := GetLow64(pn) * Pow2(8 * (3 - nSize));
    } else {
      var bn := new Limb[WIDTH];
      CopyInto(bn, pn);
      ShiftRight(bn, 8 * (nSize - 3));
      Low64(bn[..]);
      nCompact := GetLow64(bn[..]);
    }
  }

  lemma LeadingBelow(x: nat, b: nat, n: nat, top: nat)
    requires x < Pow2(b) && b <= 8 * n && top == 24
    ensures Scaled(x, n) < Pow2(top)
    ensures b < 8 * n ==> Scaled(x, n) < Pow2(top - 1)
  {
    Pow2Monotone(b, 8 * n);
    ScaledBounds(x, 8 * n, n);
    if b < 8 * n {
      Pow2Monotone(b, 8 * n - 1);
      ScaledBounds(x, 8 * n - 1, n);
    }
  }

  lemma LeadingAtLeast(x: nat, n: nat, top: nat)
    requires n > 0 && x >= Pow2(8 * n - 1) && top == 24
    ensures Scaled(x, n) >= Pow2(top - 1)
  {
    ScaledBounds(x, 8 * n - 1, n);
  }

  lemma LeadingBytesFit(x: nat, b: nat, n: nat)
    requires b == BitLen(x) && n == (b + 7) / 8
    ensures Scaled(x, n) < 0x100_0000
    ensures Scaled(x, n) >= 0x80_0000 <==> x > 0 && b % 8 == 0
  {
    assert Pow2(23) == 0x80_0000 && Pow2(24) == 0x100_0000 by { Pow2Values(); }
    if x > 0 {
      BitLenBounds(x);
      LeadingBelow(x, b, n, 24);
      if b == 8 * n { LeadingAtLeast(x, n, 24); }
    }
  }

  method GetCompact(pn: seq<Limb>, fNegative: bool) returns (nCompact: nat)
    requires |pn| == WIDTH
    ensures nCompact == Encoded(Value(pn), fNegative)
  {
    ghost var x := Value(pn);
    ValBound(pn, WIDTH);
    var bits := BitLength(pn);
    if bits > 0 { BitLenUnique(x, bits); }
    var nSize := (bits + 7) / 8;
    nCompact := LeadingBytes(pn, nSize);
    if nCompact >= 0x80_0000 {  // nCompact & 0x00800000, as nCompact has 24 bits
      ScaledNext(x, nSize);
      nCompact := nCompact / 256;
      nSize := nSize + 1;
    }
    assert nSize == SizeOf(x) && nCompact == Scaled(x, SizeOf(x));
    MantissaFits(x);
    SizeBound(x);
    nCompact := JoinFields(nSize, nCompact, fNegative);
  }

  /** The size, the sign and the mantissa occupy different bits. */
  method JoinFields(nSize: nat, mantissa: nat, fNegative: bool) returns (nCompact: nat)
    requires mantissa < 0x80_0000 && nSize < 256
    ensures nCompact == nSize * 0x100_0000 + mantissa + if fNegative && mantissa != 0 then 0x80_0000 else 0
  {
    SizeOr(nSize, mantissa);
    nCompact := Or(mantissa, nSize * 0x100_0000);
    SignOr(nSize, mantissa);
    if fNegative && nCompact % 0x80_0000 != 0 {
      nCompact := Or(nCompact, 0x80_0000);
    }
  }

  lemma SizeOr(nSize: nat, mantissa: nat)
    requires mantissa < 0x80_0000
    ensures Or(mantissa, nSize * 0x100_0000) == nSize * 0x100_0000 + mantissa
  {
    assert Pow2(24) == 0x100_0000 by { Pow2Values(); }
    assert (nSize * 0x100_0000) % 0x100_0000 == 0 by { ModOfMultiple(nSize, 0x100_0000); }
    OrIsPlus(nSize * 0x100_0000, mantissa, 24);
  }

  lemma SignOr(nSize: nat, mantissa: nat)
    requires mantissa < 0x80_0000
    ensures var n := nSize * 0x100_0000 + mantissa; n % 0x80_0000 == mantissa && Or(n, 0x80_0000) == n + 0x80_0000
  {
    var n := nSize * 0x100_0000 + mantissa;
    DivModUnique(n, 0x80_0000, 2 * nSize, mantissa);
    assert Pow2(23) == 0x80_0000 by { Pow2Values(); }
    OrClearBit(n, 23);
  }

  // ----- what the lossy encoding preserves

  /** What a number becomes when it is encoded and decoded again. */
  ghost function Rounded(x: nat): nat
    requires x < Pow2(256)
  {
    EncodedFields(x, false);
    CompactValue(Encoded(x, false))
  }

  lemma MultiplyBack(x: nat, d: nat)
    requires d > 0
    ensures (x * d) / d == x
    ensures (x / d) * d <= x < (x / d) * d + d
  {
    ModOfMultiple(x, d);
    assert x == d * (x / d) + x % d;
  }

  /** Sizes up to 3 are exact; above, the bytes after the leading three (or fewer) become zero. */
  lemma RoundedIs(x: nat)
    requires x < Pow2(256)
    ensures SizeOf(x) <= 3 ==> Rounded(x) == x
    ensures SizeOf(x) > 3 ==> Rounded(x) == (x / Pow2(8 * (SizeOf(x) - 3))) * Pow2(8 * (SizeOf(x) - 3))
    ensures Rounded(x) <= x
  {
    EncodedFields(x, false);
    if SizeOf(x) <= 3 {
      MultiplyBack(x, Pow2(8 * (3 - SizeOf(x))));
    } else {
      MultiplyBack(x, Pow2(8 * (SizeOf(x) - 3)));
    }
  }

  /** Every compact value is a 23-bit number times a power of 256. */
  lemma CompactForm(c: Compact) returns (m: nat, j: nat)
    ensures m < 0x80_0000 && CompactValue(c) == m * Pow2(8 * j)
  {
    if Size(c) <= 3 {
      SmallQuotient(Mantissa(c), 8 * (3 - Size(c)));
      m, j := CompactValue(c), 0;
    } else {
      m, j := Mantissa(c), Size(c) - 3;
    }
  }

  lemma BelowMultiple(v: nat, d: nat, x: nat)
    requires d > 0 && v * d <= x
    ensures v * d <= (x / d) * d
  {
    QuotientAtLeast(x, v, d);
    TimesMonotone(v, x / d, d);
  }

  lemma CoarserForm(m: nat, j: nat, k: nat, x: nat)
    requires k <= j && m * Pow2(8 * j) <= x
    ensures m * Pow2(8 * j) <= (x / Pow2(8 * k)) * Pow2(8 * k)
  {
    var d, f := Pow2(8 * k), Pow2(8 * (j - k));
    assert Pow2(8 * j) == f * d by { Pow2Add(8 * (j - k), 8 * k); }
    assert m * (f * d) == (m * f) * d;
    TimesMonotone(0, m, f);
    BelowMultiple(m * f, d, x);
  }

  lemma FinerForm(m: nat, j: nat, k: nat, q: nat)
    requires j < k && m < 0x80_0000 && q >= 0x8000
    ensures m * Pow2(8 * j) <= q * Pow2(8 * k)
  {
    var f := Pow2(8 * j);
    assert Pow2(8 * (j + 1)) == f * 256 by { Pow2Add(8 * j, 8); Pow2Values(); }
    Pow2Monotone(8 * (j + 1), 8 * k);
    TimesMonotone(m, 0x80_0000, f);
    assert 0x80_0000 * f == 0x8000 * (f * 256);
    CompareProducts(q, 0x8000, Pow2(8 * k), f * 256);
  }

  /** Decoding after encoding gives the greatest number not above x that any compact can express. */
  lemma RoundedIsGreatest(x: nat, c: Compact)
    requires x < Pow2(256) && CompactValue(c) <= x
    ensures CompactValue(c) <= Rounded(x) <= x
  {
    RoundedIs(x);
    var m, j := CompactForm(c);
    var size := SizeOf(x);
    if size > 3 {
      if j >= size - 3 {
        CoarserForm(m, j, size - 3, x);
      } else {
        MantissaFits(x);
        FinerForm(m, j, size - 3, x / Pow2(8 * (size - 3)));
      }
    }
  }

  lemma RoundedIsLarge(q: nat, size: nat)
    requires q >= 0x8000 && size > 3
    ensures q * Pow2(8 * (size - 3)) >= Pow2(8 * size - 9)
  {
    var d, p := Pow2(8 * (size - 3)), Pow2(15);
    assert p == 0x8000 by { Pow2Values(); }
    assert Pow2(8 * size - 9) == p * d by { Pow2Add(15, 8 * (size - 3)); }
    TimesMonotone(p, q, d);
  }

  lemma MultipleKeepsSize(x: nat, size: nat, d: nat, q: nat)
    requires size == SizeOf(x) > 3 && d == Pow2(8 * (size - 3)) && q >= 0x8000 && q * d <= x
    ensures SizeOf(q * d) == size && Scaled(q * d, size) == q
  {
    RoundedIsLarge(q, size);
    SizeBetween(q * d, x, 8 * size - 9);
    MultiplyBack(q, d);
  }

  lemma RoundedKeepsSize(x: nat)
    requires x < Pow2(256)
    ensures Rounded(x) < Pow2(256) && SizeOf(Rounded(x)) == SizeOf(x)
    ensures Scaled(Rounded(x), SizeOf(x)) == Scaled(x, SizeOf(x))
  {
    RoundedIs(x);
    var size := SizeOf(x);
    if size > 3 {
      MantissaFits(x);
      MultipleKeepsSize(x, size, Pow2(8 * (size - 3)), Scaled(x, size));
    }
  }

  lemma SizeBetween(r: nat, x: nat, e: nat)
    requires Pow2(e) <= r <= x && e % 8 == 7 && SizeOf(x) == (e + 9) / 8
    ensures SizeOf(r) == SizeOf(x)
  {
    BitLenBounds(r);
    BitLenMonotone(r, x);
    assert BitLen(r) > e by { if BitLen(r) <= e { Pow2Monotone(BitLen(r), e); } }
  }

  /** Encoding again changes nothing, and the encoding is monotone as a 32-bit number. */
  lemma EncodingIsIdempotent(x: nat, negative: bool)
    requires x < Pow2(256)
    ensures Rounded(x) < Pow2(256) && Encoded(Rounded(x), negative) == Encoded(x, negative)
  {
    RoundedKeepsSize(x);
  }

  lemma ScaledMonotone(x: nat, y: nat, size: nat)
    requires x <= y
    ensures Scaled(x, size) <= Scaled(y, size)
  {
    if size <= 3 {
      var p := Pow2(8 * (3 - size));
      assert Scaled(x, size) == x * p && Scaled(y, size) == y * p;
      TimesMonotone(x, y, p);
    } else {
      var d := Pow2(8 * (size - 3));
      assert Scaled(x, size) == x / d && Scaled(y, size) == y / d;
      QuotientMonotone(x, y, d);
    }
  }

  lemma QuotientMonotone(x: nat, y: nat, d: nat)
    requires x <= y && d > 0
    ensures x / d <= y / d
  {
    MultiplyBack(x, d);
    QuotientAtLeast(y, x / d, d);
  }

  lemma EncodingIsMonotone(x: nat, y: nat)
    requires x <= y
    ensures Encoded(x, false) <= Encoded(y, false)
  {
    BitLenMonotone(x, y);
    MantissaFits(x);
    if SizeOf(x) == SizeOf(y) { ScaledMonotone(x, y, SizeOf(x)); }
  }

  // ----- GetBitsProof

  /** 2^256 / (t+1) without ever representing 2^256. */
  lemma ProofFormula(t: nat, n: nat)
    requires t < n
    ensures (n - 1 - t) / (t + 1) + 1 == n / (t + 1)
  {
    var q, r := (n - 1 - t) / (t + 1), (n - 1 - t) % (t + 1);
    assert n - 1 - t == (t + 1) * q + r;
    assert (t + 1) * (q + 1) == (t + 1) * q + (t + 1);
    DivModUnique(n, t + 1, q + 1, r);
  }

  lemma EvenProduct(m: nat, e: nat)
    requires e > 0
    ensures (m * Pow2(e)) % 2 == 0
  {
    assert m * (2 * Pow2(e - 1)) == 2 * (m * Pow2(e - 1));
  }

  /** A compact target that fits 256 bits is never the largest 256-bit number. */
  lemma TargetHasSuccessor(c: Compact)
    requires CompactValue(c) < Pow2(256)
    ensures CompactValue(c) + 1 < Pow2(256)
  {
    var m, j := CompactForm(c);
    if j == 0 {
      assert CompactValue(c) == m by { assert Pow2(0) == 1; }
      SmallValue(m + 1);
    } else {
      EvenProduct(m, 8 * j);
      EvenProduct(1, 256);
    }
  }

  lemma ProofFits(t: nat, n: nat)
    requires 0 < t < n
    ensures 0 <= (n - 1 - t) / (t + 1) && (n - 1 - t) / (t + 1) + 1 < n
  {
    DivNonNegative(n - 1 - t, t + 1);
    var q := (n - 1 - t) / (t + 1);
    assert n - 1 - t == (t + 1) * q + (n - 1 - t) % (t + 1);
    TimesMonotone(1, t + 1, q);
  }

  /** GetBitsProof: the expected number of hashes for a target, with no intermediate wrap-around. */
  method GetBitsProof(bits: Compact) returns (proof: array<Limb>)
    ensures fresh(proof) && proof.Length == WIDTH
    ensures var t := CompactValue(bits);
            Value(proof[..]) == if t == 0 || Sign(bits) || t >= Pow2(256) then 0 else Pow2(256) / (t + 1)
  {
    var target := new Limb[WIDTH];
    var negative, overflow := SetCompact(target, bits);
    ghost var t := CompactValue(bits);
    if !overflow { DivModUnique(t, Pow2(256), 0, t); }
    var zero := EqualTo(target[..], 0);
    if negative || overflow || zero {
      proof := new Limb[WIDTH](_ => 0);
      ValZeros(proof[..], WIDTH, 0);
      return;
    }
    TargetHasSuccessor(bits);
    proof := WorkOfTarget(target);
  }

  /** `(~bnTarget / (bnTarget + 1)) + 1`. */
  method WorkOfTarget(target: array<Limb>) returns (proof: array<Limb>)
    requires target.Length == WIDTH && 0 < Value(target[..]) && Value(target[..]) + 1 < Pow2(256)
    modifies target
    ensures fresh(proof) && proof.Length == WIDTH
    ensures Value(proof[..]) == Pow2(256) / (old(Value(target[..])) + 1)
  {
    ghost var t, m := Value(target[..]), Pow2(256);
    proof := Complement(target[..]);
    Increment(target);
    assert Value(target[..]) == t + 1 by { DivModUnique(t + 1, m, 0, t + 1); }
    var ok := DivAssign(proof, target[..]);
    ghost var q := Value(proof[..]);
    assert q == (m - 1 - t) / (t + 1);
    Increment(proof);
    ProofFits(t, m);
    assert Value(proof[..]) == q + 1 by { DivModUnique(q + 1, m, 0, q + 1); }
    ProofFormula(t, m);
  }
}
