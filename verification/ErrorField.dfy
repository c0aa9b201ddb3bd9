/**
 The field with 1024 elements behind the checksum: polynomials in e over bits, with e^10 == 1 + e^2 + e^5 + e^9.

 Multiplication is only needed by powers of e, that is, as the map E and its iterates.  E has order 1023, and its
 powers below that fix nothing but zero.
 */
module ErrorField {

  import opened Closed
  import opened Iterates

  datatype Elem = Elem(
    b0: bool, b1: bool, b2: bool, b3: bool, b4: bool, b5: bool, b6: bool, b7: bool, b8: bool, b9: bool)

  function Nil(): Elem { Elem(false, false, false, false, false, false, false, false, false, false) }
  function One(): Elem { Elem(true, false, false, false, false, false, false, false, false, false) }

  /** The coefficients of 1, e, ..., e^9 as the bits of a number. */
  function El(n: bv10): Elem {
    Elem(n & 1 != 0, n & 2 != 0, n & 4 != 0, n & 8 != 0, n & 16 != 0, n & 32 != 0, n & 64 != 0, n & 128 != 0,
         n & 256 != 0, n & 512 != 0)
  }

  function Add(x: Elem, y: Elem): Elem {
    Elem(x.b0 != y.b0, x.b1 != y.b1, x.b2 != y.b2, x.b3 != y.b3, x.b4 != y.b4, x.b5 != y.b5, x.b6 != y.b6,
         x.b7 != y.b7, x.b8 != y.b8, x.b9 != y.b9)
  }

  function Sel(on: bool, v: Elem): Elem { if on then v else Nil() }

  /** Multiplication by e. */
  function E(v: Elem): Elem {
    Elem(v.b9, v.b0, v.b1 != v.b9, v.b2, v.b3, v.b4 != v.b9, v.b5, v.b6, v.b7, v.b8 != v.b9)
  }

  /** Multiplication by e^997, which is 1 + e^2 + e^3. */
  function R(v: Elem): Elem { Add(v, Add(E(E(v)), E(E(E(v))))) }

  // ----- addition

  lemma AddNil(x: Elem)
    ensures Add(x, Nil()) == x && Add(Nil(), x) == x
  {
  }

  lemma AddSelf(x: Elem)
    ensures Add(x, x) == Nil()
  {
  }

  lemma Xor3(a: bool, b: bool, c: bool)
    ensures ((a != b) != c) == (a != (b != c))
  {
  }

  lemma Xor4(a: bool, b: bool, c: bool, d: bool)
    ensures ((a != b) != (c != d)) == ((a != c) != (b != d))
  {
  }

  lemma AddAssociates(x: Elem, y: Elem, z: Elem)
    ensures Add(Add(x, y), z) == Add(x, Add(y, z))
  {
    Xor3(x.b0, y.b0, z.b0);
    Xor3(x.b1, y.b1, z.b1);
    Xor3(x.b2, y.b2, z.b2);
    Xor3(x.b3, y.b3, z.b3);
    Xor3(x.b4, y.b4, z.b4);
    Xor3(x.b5, y.b5, z.b5);
    Xor3(x.b6, y.b6, z.b6);
    Xor3(x.b7, y.b7, z.b7);
    Xor3(x.b8, y.b8, z.b8);
    Xor3(x.b9, y.b9, z.b9);
  }

  lemma AddPairs(p: Elem, q: Elem, r: Elem, s: Elem)
    ensures Add(Add(p, q), Add(r, s)) == Add(Add(p, r), Add(q, s))
  {
    Xor4(p.b0, q.b0, r.b0, s.b0);
    Xor4(p.b1, q.b1, r.b1, s.b1);
    Xor4(p.b2, q.b2, r.b2, s.b2);
    Xor4(p.b3, q.b3, r.b3, s.b3);
    Xor4(p.b4, q.b4, r.b4, s.b4);
    Xor4(p.b5, q.b5, r.b5, s.b5);
    Xor4(p.b6, q.b6, r.b6, s.b6);
    Xor4(p.b7, q.b7, r.b7, s.b7);
    Xor4(p.b8, q.b8, r.b8, s.b8);
    Xor4(p.b9, q.b9, r.b9, s.b9);
  }

  lemma Sum3(p: Elem, q: Elem, r: Elem)
    requires Add(Add(p, q), r) == Nil()
    ensures p == Add(q, r)
  {
  }

  lemma Sum4(p: Elem, q: Elem, r: Elem, s: Elem)
    requires Add(Add(Add(p, q), r), s) == Nil()
    ensures Add(p, r) == Add(q, s)
  {
    Sum3(Add(p, q), r, s);
    SameSum(p, q, r, s);
  }

  lemma SameIfNil(x: Elem, y: Elem)
    requires Add(x, y) == Nil()
    ensures x == y
  {
  }

  lemma SameSum(p: Elem, q: Elem, r: Elem, s: Elem)
    requires Add(p, q) == Add(r, s)
    ensures Add(p, r) == Add(q, s)
  {
    assert Add(Add(p, r), Add(q, s)) == Add(Add(p, q), Add(r, s)) by { AddPairs(p, q, r, s); }
    AddSelf(Add(p, q));
    SameIfNil(Add(p, r), Add(q, s));
  }

  lemma Chain(p: Elem, q: Elem, r: Elem)
    ensures Add(Add(p, q), Add(q, r)) == Add(p, r)
  {
  }

  lemma Cancel(p: Elem, q: Elem, r: Elem)
    requires Add(p, q) == Add(p, r)
    ensures q == r
  {
  }

  lemma AddLaws()
    ensures Laws(Add, Nil())
  {
    forall p, q, r | Add(Add(p, q), r) == Nil() ensures p == Add(q, r) { Sum3(p, q, r); }
    forall p, q, r, s | Add(Add(Add(p, q), r), s) == Nil() ensures Add(p, r) == Add(q, s) { Sum4(p, q, r, s); }
    forall p, q, r ensures Add(Add(p, q), Add(q, r)) == Add(p, r) { Chain(p, q, r); }
    forall p, q, r | Add(p, q) == Add(p, r) ensures q == r { Cancel(p, q, r); }
    forall p, q | Add(p, q) == Nil() ensures p == q { AddNil(p); Cancel(p, q, p); }
    assert LawsOpen(Add, Nil());
  }

  lemma SelAdd(x: bool, y: bool, v: Elem)
    ensures Sel(x != y, v) == Add(Sel(x, v), Sel(y, v))
  {
    AddNil(v);
    AddSelf(v);
    AddNil(Nil());
  }

  lemma SelSum(on: bool, x: Elem, y: Elem)
    ensures Sel(on, Add(x, y)) == Add(Sel(on, x), Sel(on, y))
  {
    AddNil(Nil());
  }

  // ----- the two maps

  lemma EAdd(x: Elem, y: Elem)
    ensures E(Add(x, y)) == Add(E(x), E(y))
  {
  }

  lemma ELinear()
    ensures Additive(Add, Nil(), E)
  {
    forall x, y ensures E(Add(x, y)) == Add(E(x), E(y)) { EAdd(x, y); }
  }

  lemma EDistinguishes(x: Elem, y: Elem)
    requires E(x) == E(y)
    ensures x == y
  {
  }

  lemma EInjective()
    ensures Injective(E)
  {
    forall x, y | E(x) == E(y) ensures x == y { EDistinguishes(x, y); }
  }

  lemma SixTerms(x: Elem, x2: Elem, x3: Elem, y: Elem, y2: Elem, y3: Elem)
    ensures Add(Add(x, y), Add(Add(x2, y2), Add(x3, y3))) == Add(Add(x, Add(x2, x3)), Add(y, Add(y2, y3)))
  {
    AddPairs(x2, y2, x3, y3);
    AddPairs(x, y, Add(x2, x3), Add(y2, y3));
  }

  lemma RAdd(x: Elem, y: Elem)
    ensures R(Add(x, y)) == Add(R(x), R(y))
  {
    EAdd(x, y);
    EAdd(E(x), E(y));
    EAdd(E(E(x)), E(E(y)));
    SixTerms(x, E(E(x)), E(E(E(x))), y, E(E(y)), E(E(E(y))));
  }

  lemma RLinear()
    ensures Additive(Add, Nil(), R)
  {
    forall x, y ensures R(Add(x, y)) == Add(R(x), R(y)) { RAdd(x, y); }
  }

  lemma RZero(x: Elem)
    requires R(x) == Nil()
    ensures x == Nil()
  {
  }

  lemma {:induction false} IterRZero(n: nat, x: Elem)
    requires Iter(R, n, x) == Nil()
    ensures x == Nil()
  {
    if n > 0 {
      RZero(Iter(R, n - 1, x));
      IterRZero(n - 1, x);
    }
  }

  lemma Commute(x: Elem)
    ensures E(R(x)) == R(E(x))
  {
    EAdd(x, Add(E(E(x)), E(E(E(x)))));
    EAdd(E(E(x)), E(E(E(x))));
  }

  lemma ECommutes()
    ensures Commuting(E, R) && Commuting(E, E)
  {
    forall x ensures E(R(x)) == R(E(x)) { Commute(x); }
  }

  // ----- elements as numbers

  predicate Has0(n: bv10) { n & 1 == 1 }
  predicate Has1(n: bv10) { n & 2 == 2 }
  predicate Has2(n: bv10) { n & 4 == 4 }
  predicate Has3(n: bv10) { n & 8 == 8 }
  predicate Has4(n: bv10) { n & 16 == 16 }
  predicate Has5(n: bv10) { n & 32 == 32 }
  predicate Has6(n: bv10) { n & 64 == 64 }
  predicate Has7(n: bv10) { n & 128 == 128 }
  predicate Has8(n: bv10) { n & 256 == 256 }
  predicate Has9(n: bv10) { n & 512 == 512 }

  lemma XorAt0(x: bv10, y: bv10)
    ensures Has0(x ^ y) == (Has0(x) != Has0(y))
  {
  }

  lemma XorAt1(x: bv10, y: bv10)
    ensures Has1(x ^ y) == (Has1(x) != Has1(y))
  {
  }

  lemma XorAt2(x: bv10, y: bv10)
    ensures Has2(x ^ y) == (Has2(x) != Has2(y))
  {
  }

  lemma XorAt3(x: bv10, y: bv10)
    ensures Has3(x ^ y) == (Has3(x) != Has3(y))
  {
  }

  lemma XorAt4(x: bv10, y: bv10)
    ensures Has4(x ^ y) == (Has4(x) != Has4(y))
  {
  }

  lemma XorAt5(x: bv10, y: bv10)
    ensures Has5(x ^ y) == (Has5(x) != Has5(y))
  {
  }

  lemma XorAt6(x: bv10, y: bv10)
    ensures Has6(x ^ y) == (Has6(x) != Has6(y))
  {
  }

  lemma XorAt7(x: bv10, y: bv10)
    ensures Has7(x ^ y) == (Has7(x) != Has7(y))
  {
  }

  lemma XorAt8(x: bv10, y: bv10)
    ensures Has8(x ^ y) == (Has8(x) != Has8(y))
  {
  }

  lemma XorAt9(x: bv10, y: bv10)
    ensures Has9(x ^ y) == (Has9(x) != Has9(y))
  {
  }

  function ElOf(n: bv10): Elem {
    Elem(Has0(n), Has1(n), Has2(n), Has3(n), Has4(n), Has5(n), Has6(n), Has7(n), Has8(n), Has9(n))
  }

  lemma SameEl(n: bv10)
    ensures El(n) == ElOf(n)
  {
  }

  lemma AddElOf(x: bv10, y: bv10)
    ensures ElOf(x ^ y) == Add(ElOf(x), ElOf(y))
  {
    XorAt0(x, y);
    XorAt1(x, y);
    XorAt2(x, y);
    XorAt3(x, y);
    XorAt4(x, y);
    XorAt5(x, y);
    XorAt6(x, y);
    XorAt7(x, y);
    XorAt8(x, y);
    XorAt9(x, y);
  }

  lemma AddEl(x: bv10, y: bv10)
    ensures El(x ^ y) == Add(El(x), El(y))
  {
    SameEl(x);
    SameEl(y);
    SameEl(x ^ y);
    AddElOf(x, y);
  }

  function ECode(x: bv10): bv10 { (x << 1) ^ (if x & 0x200 != 0 then 0x225 else 0) }
  function RCode(x: bv10): bv10 { x ^ (ECode(ECode(x)) ^ ECode(ECode(ECode(x)))) }

  lemma EEl(x: bv10)
    ensures El(ECode(x)) == E(El(x))
  {
  }

  /** `n` stands for `v`; kept closed, with a lock of its own for each step of a proof. */
  ghost predicate Codes(lock: int, n: bv10, v: Elem) { forall key: int :: Key(lock, key) ==> v == El(n) }

  lemma CodesNil(lock: int)
    ensures Codes(lock, 0, Nil())
  {
  }

  lemma CodesEl(lock: int, n: bv10)
    ensures Codes(lock, n, El(n))
  {
  }

  lemma CodesAdd(lock: int, m: bv10, u: Elem, n: bv10, v: Elem, lock': int)
    requires Codes(lock, m, u) && Codes(lock, n, v)
    ensures Codes(lock', m ^ n, Add(u, v))
  {
    assert Key(lock, 0);
    AddEl(m, n);
  }

  lemma CodesE(lock: int, n: bv10, v: Elem, lock': int)
    requires Codes(lock, n, v)
    ensures Codes(lock', ECode(n), E(v))
  {
    assert Key(lock, 0);
    EEl(n);
  }

  lemma Recode(lock: int, n: bv10, v: Elem, lock': int)
    requires Codes(lock, n, v)
    ensures Codes(lock', n, v)
  {
    assert Key(lock, 0);
  }

  lemma CodesSum(n: bv10, v: Elem, n2: bv10, v2: Elem, n3: bv10, v3: Elem)
    requires Codes(30, n, v) && Codes(30, n2, v2) && Codes(30, n3, v3)
    ensures Codes(32, n ^ (n2 ^ n3), Add(v, Add(v2, v3)))
  {
    CodesAdd(30, n2, v2, n3, v3, 31);
    Recode(30, n, v, 31);
    CodesAdd(31, n, v, n2 ^ n3, Add(v2, v3), 32);
  }

  lemma CodesR(n: bv10, v: Elem)
    requires Codes(30, n, v)
    ensures Codes(32, RCode(n), R(v))
  {
    var n1, v1 := ECode(n), E(v);
    var n2, v2 := ECode(n1), E(v1);
    var n3, v3 := ECode(n2), E(v2);
    CodesE(30, n, v, 30);
    CodesE(30, n1, v1, 30);
    CodesE(30, n2, v2, 30);
    CodesSum(n, v, n2, v2, n3, v3);
  }

  lemma CodesOne(lock: int, n: bv10, u: Elem, v: Elem)
    requires Codes(lock, n, u) && Codes(lock, n, v)
    ensures u == v
  {
    assert Key(lock, 0);
  }

  // ----- a linear map that commutes with E is determined by the image of 1

  function Coefficient(v: Elem, k: nat): bool {
    match k
    case 0 => v.b0
    case 1 => v.b1
    case 2 => v.b2
    case 3 => v.b3
    case 4 => v.b4
    case 5 => v.b5
    case 6 => v.b6
    case 7 => v.b7
    case 8 => v.b8
    case _ => v.b9
  }

  /** Division by e, for a value without constant term. */
  function Down(v: Elem): Elem { Elem(v.b1, v.b2, v.b3, v.b4, v.b5, v.b6, v.b7, v.b8, v.b9, false) }

  lemma Horner(v: Elem)
    ensures v == Add(Sel(v.b0, One()), E(Down(v)))
  {
  }

  /** No terms from e^k on. */
  ghost predicate Below(v: Elem, k: nat) { forall i :: k <= i < 10 ==> !Coefficient(v, i) }

  lemma BelowNone(v: Elem)
    requires Below(v, 0)
    ensures v == Nil()
  {
    assert !Coefficient(v, 0) && !Coefficient(v, 1) && !Coefficient(v, 2) && !Coefficient(v, 3) && !Coefficient(v, 4);
    assert !Coefficient(v, 5) && !Coefficient(v, 6) && !Coefficient(v, 7) && !Coefficient(v, 8) && !Coefficient(v, 9);
  }

  lemma BelowDown(v: Elem, k: nat)
    requires Below(v, k + 1)
    ensures Below(Down(v), k)
  {
    forall i | k <= i < 10 ensures !Coefficient(Down(v), i) {
      if i < 9 { assert Coefficient(Down(v), i) == Coefficient(v, i + 1); }
    }
  }

  lemma {:induction false} KeepsBelow(f: Elem -> Elem, v: Elem, k: nat)
    requires Additive(Add, Nil(), f) && Commuting(f, E) && f(One()) == One() && Below(v, k)
    ensures f(v) == v
    decreases k
  {
    if k == 0 {
      BelowNone(v);
      ByAdditive(Add, Nil(), f, Nil(), Nil());
    } else {
      var w := Down(v);
      BelowDown(v, k - 1);
      KeepsBelow(f, w, k - 1);
      ByCommuting(f, E, w);
      ByAdditive(Add, Nil(), f, Sel(v.b0, One()), E(w));
      Horner(v);
    }
  }

  lemma KeepsAll(f: Elem -> Elem, v: Elem)
    requires Additive(Add, Nil(), f) && Commuting(f, E) && f(One()) == One()
    ensures f(v) == v
  {
    KeepsBelow(f, v, 10);
  }

  // ----- powers of e

  /** Squaring. */
  function Sq(v: Elem): Elem {
    Elem((((v.b0 != v.b5) != v.b6) != v.b7) != v.b8, v.b6 != v.b7, (v.b1 != v.b5) != v.b9, v.b6 != v.b8, v.b2 != v.b6,
         ((v.b5 != v.b6) != v.b8) != v.b9, v.b3 != v.b6, (v.b6 != v.b7) != v.b9, v.b4 != v.b7, v.b5 != v.b6)
  }

  lemma SqE(v: Elem)
    ensures Sq(E(v)) == E(E(Sq(v)))
  {
  }

  lemma {:induction false} PowerSquared(n: nat)
    ensures Iter(E, 2 * n, One()) == Sq(Iter(E, n, One()))
  {
    if n > 0 {
      PowerSquared(n - 1);
      SqE(Iter(E, n - 1, One()));
      assert Iter(E, 2 * n, One()) == E(Iter(E, 2 * n - 1, One()));
    }
  }

  lemma DoubledPower(n: nat, x: Elem, m: nat, y: Elem)
    requires Iter(E, n, One()) == x && m == 2 * n && Sq(x) == y
    ensures Iter(E, m, One()) == y
  {
    PowerSquared(n);
  }

  lemma NextPower(n: nat, x: Elem, m: nat, y: Elem)
    requires Iter(E, n, One()) == x && m == n + 1 && E(x) == y
    ensures Iter(E, m, One()) == y
  {
  }

  lemma PowersTo8()
    ensures Iter(E, 2, One()) == El(0x4) && Iter(E, 4, One()) == El(0x10) && Iter(E, 8, One()) == El(0x100)
  {
    assert Iter(E, 1, One()) == E(Iter(E, 0, One())) == El(0x2);
    DoubledPower(1, El(0x2), 2, El(0x4));
    DoubledPower(2, El(0x4), 4, El(0x10));
    DoubledPower(4, El(0x10), 8, El(0x100));
  }

  lemma PowersTo64()
    ensures Iter(E, 64, One()) == El(0x6a)
  {
    PowersTo8();
    DoubledPower(8, El(0x100), 16, El(0x29));
    DoubledPower(16, El(0x29), 32, El(0x264));
    DoubledPower(32, El(0x264), 64, El(0x6a));
  }

  lemma PowersTo512()
    ensures Iter(E, 512, One()) == El(0x36d)
  {
    PowersTo64();
    DoubledPower(64, El(0x6a), 128, El(0x9a));
    DoubledPower(128, El(0x9a), 256, El(0xc7));
    DoubledPower(256, El(0xc7), 512, El(0x36d));
  }

  lemma PowerIs1024()
    ensures Iter(E, 1024, One()) == El(0x2)
  {
    PowersTo512();
    DoubledPower(512, El(0x36d), 1024, El(0x2));
  }

  lemma PowersTo12()
    ensures Iter(E, 12, One()) == El(0x2fb)
  {
    PowersTo8();
    NextPower(2, El(0x4), 3, El(0x8));
    DoubledPower(3, El(0x8), 6, El(0x40));
    DoubledPower(6, El(0x40), 12, El(0x2fb));
  }

  lemma PowersTo49()
    ensures Iter(E, 49, One()) == El(0x3c9)
  {
    PowersTo12();
    DoubledPower(12, El(0x2fb), 24, El(0xbc));
    DoubledPower(24, El(0xbc), 48, El(0x2f6));
    NextPower(48, El(0x2f6), 49, El(0x3c9));
  }

  lemma PowersTo198()
    ensures Iter(E, 198, One()) == El(0x283)
  {
    PowersTo49();
    DoubledPower(49, El(0x3c9), 98, El(0x3b4));
    NextPower(98, El(0x3b4), 99, El(0x14d));
    DoubledPower(99, El(0x14d), 198, El(0x283));
  }

  lemma PowerIs396()
    ensures Iter(E, 396, One()) == El(0x122)
  {
    PowersTo198();
    DoubledPower(198, El(0x283), 396, El(0x122));
  }

  lemma PowersTo52()
    ensures Iter(E, 52, One()) == El(0xf9)
  {
    PowersTo12();
    NextPower(12, El(0x2fb), 13, El(0x3d3));
    DoubledPower(13, El(0x3d3), 26, El(0x2f0));
    DoubledPower(26, El(0x2f0), 52, El(0xf9));
  }

  lemma PowersTo106()
    ensures Iter(E, 106, One()) == El(0x70)
  {
    PowersTo52();
    NextPower(52, El(0xf9), 53, El(0x1f2));
    DoubledPower(53, El(0x1f2), 106, El(0x70));
  }

  lemma PowersTo428()
    ensures Iter(E, 428, One()) == El(0x383)
  {
    PowersTo106();
    NextPower(106, El(0x70), 107, El(0xe0));
    DoubledPower(107, El(0xe0), 214, El(0x15d));
    DoubledPower(214, El(0x15d), 428, El(0x383));
  }

  lemma PowerIs429()
    ensures Iter(E, 429, One()) == El(0x123)
  {
    PowersTo428();
    NextPower(428, El(0x383), 429, El(0x123));
  }

  lemma PowerIs426()
    ensures Iter(E, 426, One()) == El(0x27b)
  {
    PowersTo106();
    DoubledPower(106, El(0x70), 212, El(0x1de));
    NextPower(212, El(0x1de), 213, El(0x3bc));
    DoubledPower(213, El(0x3bc), 426, El(0x27b));
  }

  lemma PowersTo20()
    ensures Iter(E, 20, One()) == El(0x290)
  {
    PowersTo8();
    NextPower(4, El(0x10), 5, El(0x20));
    DoubledPower(5, El(0x20), 10, El(0x225));
    DoubledPower(10, El(0x225), 20, El(0x290));
  }

  lemma PowersTo82()
    ensures Iter(E, 82, One()) == El(0x2af)
  {
    PowersTo20();
    DoubledPower(20, El(0x290), 40, El(0x27));
    NextPower(40, El(0x27), 41, El(0x4e));
    DoubledPower(41, El(0x4e), 82, El(0x2af));
  }

  lemma PowersTo332()
    ensures Iter(E, 332, One()) == El(0x13d)
  {
    PowersTo82();
    NextPower(82, El(0x2af), 83, El(0x37b));
    DoubledPower(83, El(0x37b), 166, El(0x116));
    DoubledPower(166, El(0x116), 332, El(0x13d));
  }

  lemma PowerIs333()
    ensures Iter(E, 333, One()) == El(0x27a)
  {
    PowersTo332();
    NextPower(332, El(0x13d), 333, El(0x27a));
  }

  lemma PowersTo84()
    ensures Iter(E, 84, One()) == El(0xd3)
  {
    PowersTo20();
    NextPower(20, El(0x290), 21, El(0x305));
    DoubledPower(21, El(0x305), 42, El(0x9c));
    DoubledPower(42, El(0x9c), 84, El(0xd3));
  }

  lemma PowersTo340()
    ensures Iter(E, 340, One()) == El(0x4b)
  {
    PowersTo84();
    NextPower(84, El(0xd3), 85, El(0x1a6));
    DoubledPower(85, El(0x1a6), 170, El(0x39b));
    DoubledPower(170, El(0x39b), 340, El(0x4b));
  }

  lemma PowersTo682()
    ensures Iter(E, 341, One()) == El(0x96) && Iter(E, 682, One()) == El(0x97)
  {
    PowersTo340();
    NextPower(340, El(0x4b), 341, El(0x96));
    DoubledPower(341, El(0x96), 682, El(0x97));
  }

  /** E has order 1023. */
  lemma Order(v: Elem)
    ensures Iter(E, 1023, v) == v
  {
    var f := (x: Elem) => Iter(E, 1023, x);
    ELinear();
    EInjective();
    ECommutes();
    PowerIs1024();
    EDistinguishes(Iter(E, 1023, One()), One());
    IterLinear(Add, Nil(), E, 1023, Nil(), Nil());
    forall x, y ensures f(Add(x, y)) == Add(f(x), f(y)) { IterLinear(Add, Nil(), E, 1023, x, y); }
    forall x ensures f(E(x)) == E(f(x)) { IterCommutes(E, E, 1023, x); }
    KeepsAll(f, v);
  }

  // ----- inverses

  /** Multiplication by e^m + e^n. */
  function TwoPowers(m: nat, n: nat, x: Elem): Elem { Add(Iter(E, m, x), Iter(E, n, x)) }

  lemma TwoPowersAdd(m: nat, n: nat, x: Elem, y: Elem)
    ensures TwoPowers(m, n, Add(x, y)) == Add(TwoPowers(m, n, x), TwoPowers(m, n, y))
    ensures TwoPowers(m, n, Nil()) == Nil()
  {
    ELinear();
    IterLinear(Add, Nil(), E, m, x, y);
    IterLinear(Add, Nil(), E, n, x, y);
    AddPairs(Iter(E, m, x), Iter(E, m, y), Iter(E, n, x), Iter(E, n, y));
    AddNil(Nil());
  }

  lemma TwoPowersE(m: nat, n: nat, x: Elem)
    ensures TwoPowers(m, n, E(x)) == E(TwoPowers(m, n, x))
  {
    ECommutes();
    IterCommutes(E, E, m, x);
    IterCommutes(E, E, n, x);
    EAdd(Iter(E, m, x), Iter(E, n, x));
  }

  function Map(m: nat, n: nat): Elem -> Elem { (x: Elem) => TwoPowers(m, n, x) }

  lemma MapLinear(m: nat, n: nat)
    ensures Additive(Add, Nil(), Map(m, n))
  {
    TwoPowersAdd(m, n, Nil(), Nil());
    MapAdd(m, n);
  }

  lemma MapAdd(m: nat, n: nat)
    ensures forall x, y :: Map(m, n)(Add(x, y)) == Add(Map(m, n)(x), Map(m, n)(y))
  {
    forall x, y ensures Map(m, n)(Add(x, y)) == Add(Map(m, n)(x), Map(m, n)(y)) { TwoPowersAdd(m, n, x, y); }
  }

  lemma MapCommutes(m: nat, n: nat)
    ensures Commuting(Map(m, n), E)
  {
    forall x ensures Map(m, n)(E(x)) == E(Map(m, n)(x)) { TwoPowersE(m, n, x); }
  }

  /** If e^m is the inverse of 1 + e^n, then E^n fixes only zero. */
  lemma FixesOnlyNil(n: nat, m: nat, v: Elem)
    requires TwoPowers(m, m + n, One()) == One() && Iter(E, n, v) == v
    ensures v == Nil()
  {
    MapLinear(m, m + n);
    MapCommutes(m, m + n);
    KeepsAll(Map(m, m + n), v);
    IterAdds(E, m, n, v);
    AddSelf(Iter(E, m, v));
  }

  // ----- powers below 1023 fix only zero

  lemma Inverse33()
    ensures TwoPowers(396, 429, One()) == One()
  {
    PowerIs396();
    PowerIs429();
  }

  lemma Inverse93()
    ensures TwoPowers(333, 426, One()) == One()
  {
    PowerIs333();
    PowerIs426();
  }

  lemma Inverse341()
    ensures TwoPowers(341, 682, One()) == One()
  {
    PowersTo682();
  }

  lemma Fixed33(v: Elem)
    requires Iter(E, 33, v) == v
    ensures v == Nil()
  {
    Inverse33();
    FixesOnlyNil(33, 396, v);
  }

  lemma Fixed93(v: Elem)
    requires Iter(E, 93, v) == v
    ensures v == Nil()
  {
    Inverse93();
    FixesOnlyNil(93, 333, v);
  }

  lemma Fixed341(v: Elem)
    requires Iter(E, 341, v) == v
    ensures v == Nil()
  {
    Inverse341();
    FixesOnlyNil(341, 341, v);
  }

  /** From a power d that fixes v to the power q, where q * p == 1023 and d * s == 1 modulo p. */
  lemma Reduced(d: nat, p: nat, q: nat, s: nat, k: nat, v: Elem)
    requires Iter(E, d, v) == v && p * q == 1023 && d * s == p * k + 1
    ensures Iter(E, q, v) == v
  {
    FixedByMultiples(E, d, s, v);
    FixedByMultiples(E, d * s, q, v);
    ReducedExponent(d * s, p, q, k);
    Order(v);
    FixedByRemainder(E, 1023, k, q, v);
  }

  lemma ReducedExponent(m: int, p: int, q: int, k: int)
    requires m == p * k + 1 && p * q == 1023
    ensures m * q == 1023 * k + q
  {
    assert (p * k + 1) * q == p * k * q + q;
    assert p * k * q == (p * q) * k;
  }

  // inverses modulo 3, 11 and 31

  function Modulo3(r: nat): nat {
    match r
    case 1 => 1
    case _ => 2
  }

  function Modulo11(r: nat): nat {
    match r
    case 1 => 1
    case 2 => 6
    case 3 => 4
    case 4 => 3
    case 5 => 9
    case 6 => 2
    case 7 => 8
    case 8 => 7
    case 9 => 5
    case _ => 10
  }

  function Modulo31(r: nat): nat {
    match r
    case 1 => 1
    case 2 => 16
    case 3 => 21
    case 4 => 8
    case 5 => 25
    case 6 => 26
    case 7 => 9
    case 8 => 4
    case 9 => 7
    case 10 => 28
    case 11 => 17
    case 12 => 13
    case 13 => 12
    case 14 => 20
    case 15 => 29
    case 16 => 2
    case 17 => 11
    case 18 => 19
    case 19 => 18
    case 20 => 14
    case 21 => 3
    case 22 => 24
    case 23 => 27
    case 24 => 22
    case 25 => 5
    case 26 => 6
    case 27 => 23
    case 28 => 10
    case 29 => 15
    case _ => 30
  }

  lemma Modulo3Is(r: nat)
    ensures 0 < r < 3 ==> r * Modulo3(r) % 3 == 1
  {
  }

  lemma Modulo11Is(r: nat)
    ensures 0 < r < 11 ==> r * Modulo11(r) % 11 == 1
  {
  }

  lemma Modulo31Is(r: nat)
    ensures 0 < r < 31 ==> r * Modulo31(r) % 31 == 1
  {
  }

  lemma InverseUsed(d: nat, p: nat, s: nat) returns (k: nat)
    requires p > 0 && d % p * s % p == 1
    ensures d * s == p * k + 1
  {
    var q, r := d / p, d % p;
    k := q * s + r * s / p;
    assert d * s == p * q * s + r * s;
    assert r * s == p * (r * s / p) + 1;
    assert p * k == p * q * s + p * (r * s / p);
  }

  /** The powers of E below 1023 fix nothing but zero. */
  lemma FixesNothing(d: nat, v: Elem)
    requires 0 < d < 1023 && Iter(E, d, v) == v
    ensures v == Nil()
  {
    if d % 3 != 0 {
      Modulo3Is(d % 3);
      var k := InverseUsed(d, 3, Modulo3(d % 3));
      Reduced(d, 3, 341, Modulo3(d % 3), k, v);
      Fixed341(v);
    } else if d % 11 != 0 {
      Modulo11Is(d % 11);
      var k := InverseUsed(d, 11, Modulo11(d % 11));
      Reduced(d, 11, 93, Modulo11(d % 11), k, v);
      Fixed93(v);
    } else {
      assert d % 31 != 0 by { NotAll(d); }
      Modulo31Is(d % 31);
      var k := InverseUsed(d, 31, Modulo31(d % 31));
      Reduced(d, 31, 33, Modulo31(d % 31), k, v);
      Fixed33(v);
    }
  }

  lemma NotAll(d: nat)
    requires 0 < d < 1023 && d % 3 == 0 && d % 11 == 0
    ensures d % 31 != 0
  {
    var q := d / 33;
    assert d == 33 * q && 0 < q < 31;
  }

  lemma ESeparates()
    ensures Separates(E, Nil())
  {
    EInjective();
    forall m: nat, n: nat, u | n < m < n + 1023 && Iter(E, m, u) == Iter(E, n, u) ensures u == Nil() {
      FixedByDifference(E, m, n, u);
      FixesNothing(m - n, u);
    }
  }
}
