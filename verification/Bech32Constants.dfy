/**
 The generator vanishes at e^997, e^998 and e^999.  Field elements are written as numbers here, and each sum over the
 bits of a multiple of the generator is worked out in six parts.
 */
module Bech32Constants {

  import opened Closed
  import opened Words
  import opened Bech32
  import opened Iterates
  import opened ErrorField
  import opened Bech32Roots

  // ----- the three roots, with numbers for field elements

  function ER(v: Elem): Elem { E(R(v)) }
  function EER(v: Elem): Elem { E(E(R(v))) }

  /** Multiplication by e^997, e^998 and e^999. */
  function Root(k: nat): Elem -> Elem { if k == 0 then R else if k == 1 then ER else EER }

  function RootCode(k: nat, x: bv10): bv10 {
    if k == 0 then RCode(x) else if k == 1 then ECode(RCode(x)) else ECode(ECode(RCode(x)))
  }

  function BasisCode(n: nat): bv10 {
    match n
    case 0 => 0x1
    case 1 => 0x14d
    case 2 => 0x283
    case 3 => 0x267
    case _ => 0x122
  }

  function WeightCode(k: nat, i: nat): bv10 { if i < 5 then BasisCode(i) else RootCode(k, WeightCode(k, i - 5)) }

  function TermCode(k: nat, g: nat, i: nat): bv10 { if Bit(g, i) then WeightCode(k, i) else 0 }

  function ValueCode(k: nat, g: nat, i: nat): bv10 {
    if i == 0 then 0 else ValueCode(k, g, i - 1) ^ TermCode(k, g, i - 1)
  }

  lemma RootIs(k: nat, x: bv10, v: Elem)
    requires Codes(30, x, v)
    ensures Codes(33, RootCode(k, x), Root(k)(v))
  {
    CodesR(x, v);
    CodesE(32, RCode(x), R(v), 32);
    CodesE(32, ECode(RCode(x)), E(R(v)), 32);
    Recode(32, RootCode(k, x), Root(k)(v), 33);
  }

  lemma BasisIs(i: nat)
    ensures Codes(30, BasisCode(i), Basis(i))
  {
    CodesEl(30, BasisCode(i));
  }

  lemma {:induction false} WeightIs(k: nat, i: nat)
    ensures Codes(30, WeightCode(k, i), Weight(Root(k), i))
  {
    if i < 5 {
      BasisIs(i);
    } else {
      WeightIs(k, i - 5);
      RootIs(k, WeightCode(k, i - 5), Weight(Root(k), i - 5));
      Recode(33, WeightCode(k, i), Weight(Root(k), i), 30);
    }
  }

  lemma {:induction false} ValueIs(k: nat, g: nat, i: nat)
    requires i <= 32
    ensures Codes(30, ValueCode(k, g, i), Value(Root(k), FromInt(g), i))
  {
    if i == 0 {
      CodesNil(30);
    } else {
      ValueIs(k, g, i - 1);
      TermIs(k, g, i - 1);
      CodesAdd(30, ValueCode(k, g, i - 1), Value(Root(k), FromInt(g), i - 1),
               TermCode(k, g, i - 1), Term(Root(k), FromInt(g), i - 1), 30);
    }
  }

  lemma TermIs(k: nat, g: nat, i: nat)
    requires i < 32
    ensures Codes(30, TermCode(k, g, i), Term(Root(k), FromInt(g), i))
  {
    CodesNil(30);
    WeightIs(k, i);
    assert FromInt(g).b[i] == Bit(g, i);
  }

  lemma BitFive(x: nat, y: nat, i: nat)
    requires y == x / 32
    ensures Bit(x, i + 5) == Bit(y, i)
  {
    var x1 := x / 2;
    var x2 := x1 / 2;
    var x3 := x2 / 2;
    var x4 := x3 / 2;
    assert Bit(x, i + 5) == Bit(x1, i + 4) == Bit(x2, i + 3) == Bit(x3, i + 2) == Bit(x4, i + 1) == Bit(x4 / 2, i);
    assert x4 / 2 == y;
  }

  /** A number without its lowest `k` groups of five bits. */
  function Groups(g: nat, k: nat): nat { if k == 0 then g else Groups(g / 32, k - 1) }

  lemma {:induction false} BitsAbove(g: nat, q: nat, k: nat, i: nat, j: nat)
    requires q == Groups(g, k) && j == 5 * k + i
    ensures Bit(g, j) == Bit(q, i)
    decreases k
  {
    if k > 0 {
      BitFive(g, g / 32, j - 5);
      BitsAbove(g / 32, q, k - 1, i, j - 5);
    }
  }

  lemma Weights0_0()
    ensures WeightCode(0, 0) == 0x1 && WeightCode(0, 1) == 0x14d && WeightCode(0, 2) == 0x283
    ensures WeightCode(0, 3) == 0x267 && WeightCode(0, 4) == 0x122
  {
  }

  lemma Weights0_1()
    ensures WeightCode(0, 5) == 0xd && WeightCode(0, 6) == 0x25b && WeightCode(0, 7) == 0x226
    ensures WeightCode(0, 8) == 0x57 && WeightCode(0, 9) == 0xf0
  {
    Weights0_0();
  }

  lemma Weights0_2()
    ensures WeightCode(0, 10) == 0x51 && WeightCode(0, 11) == 0x17b && WeightCode(0, 12) == 0x31a
    ensures WeightCode(0, 13) == 0x3b3 && WeightCode(0, 14) == 0x295
  {
    Weights0_1();
  }

  lemma Weights0_3()
    ensures WeightCode(0, 15) == 0x39d && WeightCode(0, 16) == 0x305 && WeightCode(0, 17) == 0x37c
    ensures WeightCode(0, 18) == 0x21c && WeightCode(0, 19) == 0x2d8
  {
    Weights0_2();
  }

  lemma Weights0_4()
    ensures WeightCode(0, 20) == 0x3fa && WeightCode(0, 21) == 0x3e7 && WeightCode(0, 22) == 0x1b2
    ensures WeightCode(0, 23) == 0x218 && WeightCode(0, 24) == 0x1c9
  {
    Weights0_3();
  }

  lemma Weights0_5()
    ensures WeightCode(0, 25) == 0x139 && WeightCode(0, 26) == 0x1b8 && WeightCode(0, 27) == 0x85
    ensures WeightCode(0, 28) == 0x22c && WeightCode(0, 29) == 0x2ca
  {
    Weights0_4();
  }

  lemma Weights0_6()
    ensures WeightCode(0, 30) == 0x5f && WeightCode(0, 31) == 0xf7 && WeightCode(0, 32) == 0x9c
    ensures WeightCode(0, 33) == 0x368 && WeightCode(0, 34) == 0x103
  {
    Weights0_5();
  }

  lemma Weights1_0()
    ensures WeightCode(1, 0) == 0x1 && WeightCode(1, 1) == 0x14d && WeightCode(1, 2) == 0x283
    ensures WeightCode(1, 3) == 0x267 && WeightCode(1, 4) == 0x122
  {
  }

  lemma Weights1_1()
    ensures WeightCode(1, 5) == 0x1a && WeightCode(1, 6) == 0x293 && WeightCode(1, 7) == 0x269
    ensures WeightCode(1, 8) == 0xae && WeightCode(1, 9) == 0x1e0
  {
    Weights1_0();
  }

  lemma Weights1_2()
    ensures WeightCode(1, 10) == 0x144 && WeightCode(1, 11) == 0x3c9 && WeightCode(1, 12) == 0x22
    ensures WeightCode(1, 13) == 0x286 && WeightCode(1, 14) == 0x3b
  {
    Weights1_1();
  }

  lemma Weights1_3()
    ensures WeightCode(1, 15) == 0x259 && WeightCode(1, 16) == 0xbc && WeightCode(1, 17) == 0x374
    ensures WeightCode(1, 18) == 0x21b && WeightCode(1, 19) == 0x21e
  {
    Weights1_2();
  }

  lemma Weights1_4()
    ensures WeightCode(1, 20) == 0x2c2 && WeightCode(1, 21) == 0x312 && WeightCode(1, 22) == 0x3b4
    ensures WeightCode(1, 23) == 0x253 && WeightCode(1, 24) == 0x221
  {
    Weights1_3();
  }

  lemma Weights1_5()
    ensures WeightCode(1, 25) == 0x2d6 && WeightCode(1, 26) == 0xd && WeightCode(1, 27) == 0x25b
    ensures WeightCode(1, 28) == 0x226 && WeightCode(1, 29) == 0x57
  {
    Weights1_4();
  }

  lemma Weights1_6()
    ensures WeightCode(1, 30) == 0x31e && WeightCode(1, 31) == 0xa2 && WeightCode(1, 32) == 0x2f6
    ensures WeightCode(1, 33) == 0x11 && WeightCode(1, 34) == 0x143
  {
    Weights1_5();
  }

  lemma Weights2_0()
    ensures WeightCode(2, 0) == 0x1 && WeightCode(2, 1) == 0x14d && WeightCode(2, 2) == 0x283
    ensures WeightCode(2, 3) == 0x267 && WeightCode(2, 4) == 0x122
  {
  }

  lemma Weights2_1()
    ensures WeightCode(2, 5) == 0x34 && WeightCode(2, 6) == 0x303 && WeightCode(2, 7) == 0x2f7
    ensures WeightCode(2, 8) == 0x15c && WeightCode(2, 9) == 0x3c0
  {
    Weights2_0();
  }

  lemma Weights2_2()
    ensures WeightCode(2, 10) == 0x335 && WeightCode(2, 11) == 0x36e && WeightCode(2, 12) == 0x88
    ensures WeightCode(2, 13) == 0x77 && WeightCode(2, 14) == 0xec
  {
    Weights2_1();
  }

  lemma Weights2_3()
    ensures WeightCode(2, 15) == 0x33 && WeightCode(2, 16) == 0x3c5 && WeightCode(2, 17) == 0x334
    ensures WeightCode(2, 18) == 0x223 && WeightCode(2, 19) == 0x20b
  {
    Weights2_2();
  }

  lemma Weights2_4()
    ensures WeightCode(2, 20) == 0x3b9 && WeightCode(2, 21) == 0x8 && WeightCode(2, 22) == 0x7
    ensures WeightCode(2, 23) == 0xc6 && WeightCode(2, 24) == 0x1c3
  {
    Weights2_3();
  }

  lemma Weights2_5()
    ensures WeightCode(2, 25) == 0x3d7 && WeightCode(2, 26) == 0x1a0 && WeightCode(2, 27) == 0x8c
    ensures WeightCode(2, 28) == 0x366 && WeightCode(2, 29) == 0x8f
  {
    Weights2_4();
  }

  lemma Weights2_6()
    ensures WeightCode(2, 30) == 0x320 && WeightCode(2, 31) == 0x13c && WeightCode(2, 32) == 0x3e4
    ensures WeightCode(2, 33) == 0x265 && WeightCode(2, 34) == 0x3b8
  {
    Weights2_5();
  }

  lemma Bits0_0()
    ensures !Bit(0x3b6a57b2, 0) && Bit(0x3b6a57b2, 1) && !Bit(0x3b6a57b2, 2) && !Bit(0x3b6a57b2, 3)
    ensures Bit(0x3b6a57b2, 4)
  {
  }

  lemma Bits0_1()
    ensures Bit(0x3b6a57b2, 5) && !Bit(0x3b6a57b2, 6) && Bit(0x3b6a57b2, 7) && Bit(0x3b6a57b2, 8) && Bit(0x3b6a57b2, 9)
  {
    BitsAbove(0x3b6a57b2, 0x1db52bd, 1, 0, 5);
    BitsAbove(0x3b6a57b2, 0x1db52bd, 1, 1, 6);
    BitsAbove(0x3b6a57b2, 0x1db52bd, 1, 2, 7);
    BitsAbove(0x3b6a57b2, 0x1db52bd, 1, 3, 8);
    BitsAbove(0x3b6a57b2, 0x1db52bd, 1, 4, 9);
  }

  lemma Bits0_2()
    ensures Bit(0x3b6a57b2, 10) && !Bit(0x3b6a57b2, 11) && Bit(0x3b6a57b2, 12) && !Bit(0x3b6a57b2, 13)
    ensures Bit(0x3b6a57b2, 14)
  {
    BitsAbove(0x3b6a57b2, 0xeda95, 2, 0, 10);
    BitsAbove(0x3b6a57b2, 0xeda95, 2, 1, 11);
    BitsAbove(0x3b6a57b2, 0xeda95, 2, 2, 12);
    BitsAbove(0x3b6a57b2, 0xeda95, 2, 3, 13);
    BitsAbove(0x3b6a57b2, 0xeda95, 2, 4, 14);
  }

  lemma Bits0_3()
    ensures !Bit(0x3b6a57b2, 15) && !Bit(0x3b6a57b2, 16) && Bit(0x3b6a57b2, 17) && !Bit(0x3b6a57b2, 18)
    ensures Bit(0x3b6a57b2, 19)
  {
    BitsAbove(0x3b6a57b2, 0x76d4, 3, 0, 15);
    BitsAbove(0x3b6a57b2, 0x76d4, 3, 1, 16);
    BitsAbove(0x3b6a57b2, 0x76d4, 3, 2, 17);
    BitsAbove(0x3b6a57b2, 0x76d4, 3, 3, 18);
    BitsAbove(0x3b6a57b2, 0x76d4, 3, 4, 19);
  }

  lemma Bits0_4()
    ensures !Bit(0x3b6a57b2, 20) && Bit(0x3b6a57b2, 21) && Bit(0x3b6a57b2, 22) && !Bit(0x3b6a57b2, 23)
    ensures Bit(0x3b6a57b2, 24)
  {
    BitsAbove(0x3b6a57b2, 0x3b6, 4, 0, 20);
    BitsAbove(0x3b6a57b2, 0x3b6, 4, 1, 21);
    BitsAbove(0x3b6a57b2, 0x3b6, 4, 2, 22);
    BitsAbove(0x3b6a57b2, 0x3b6, 4, 3, 23);
    BitsAbove(0x3b6a57b2, 0x3b6, 4, 4, 24);
  }

  lemma Bits0_5()
    ensures Bit(0x3b6a57b2, 25) && !Bit(0x3b6a57b2, 26) && Bit(0x3b6a57b2, 27) && Bit(0x3b6a57b2, 28)
    ensures Bit(0x3b6a57b2, 29)
  {
    BitsAbove(0x3b6a57b2, 0x1d, 5, 0, 25);
    BitsAbove(0x3b6a57b2, 0x1d, 5, 1, 26);
    BitsAbove(0x3b6a57b2, 0x1d, 5, 2, 27);
    BitsAbove(0x3b6a57b2, 0x1d, 5, 3, 28);
    BitsAbove(0x3b6a57b2, 0x1d, 5, 4, 29);
  }

  lemma Sum0_0(m: nat)
    requires 29 < m < 31
    ensures ValueCode(0, Generator(0), m) == WeightCode(0, m + 0)
  {
    Bits0_0();
    Weights0_0();
    Bits0_1();
    Weights0_1();
    Bits0_2();
    Weights0_2();
    Bits0_3();
    Weights0_3();
    Bits0_4();
    Weights0_4();
    Bits0_5();
    Weights0_5();
    Weights0_6();
    assert ValueCode(0, 0x3b6a57b2, 5) == 0x6f;
    assert ValueCode(0, 0x3b6a57b2, 10) == 0x2e3;
    assert ValueCode(0, 0x3b6a57b2, 15) == 0x33d;
    assert ValueCode(0, 0x3b6a57b2, 20) == 0x299;
    assert ValueCode(0, 0x3b6a57b2, 25) == 0x105;
    assert ValueCode(0, 0x3b6a57b2, 30) == 0x5f;
    assert m == 30;
  }

  lemma Sum1_0(m: nat)
    requires 29 < m < 31
    ensures ValueCode(1, Generator(0), m) == WeightCode(1, m + 0)
  {
    Bits0_0();
    Weights1_0();
    Bits0_1();
    Weights1_1();
    Bits0_2();
    Weights1_2();
    Bits0_3();
    Weights1_3();
    Bits0_4();
    Weights1_4();
    Bits0_5();
    Weights1_5();
    Weights1_6();
    assert ValueCode(1, 0x3b6a57b2, 5) == 0x6f;
    assert ValueCode(1, 0x3b6a57b2, 10) == 0x352;
    assert ValueCode(1, 0x3b6a57b2, 15) == 0x20f;
    assert ValueCode(1, 0x3b6a57b2, 20) == 0x365;
    assert ValueCode(1, 0x3b6a57b2, 25) == 0x1e2;
    assert ValueCode(1, 0x3b6a57b2, 30) == 0x31e;
    assert m == 30;
  }

  lemma Sum2_0(m: nat)
    requires 29 < m < 31
    ensures ValueCode(2, Generator(0), m) == WeightCode(2, m + 0)
  {
    Bits0_0();
    Weights2_0();
    Bits0_1();
    Weights2_1();
    Bits0_2();
    Weights2_2();
    Bits0_3();
    Weights2_3();
    Bits0_4();
    Weights2_4();
    Bits0_5();
    Weights2_5();
    Weights2_6();
    assert ValueCode(2, 0x3b6a57b2, 5) == 0x6f;
    assert ValueCode(2, 0x3b6a57b2, 10) == 0x30;
    assert ValueCode(2, 0x3b6a57b2, 15) == 0x361;
    assert ValueCode(2, 0x3b6a57b2, 20) == 0x25e;
    assert ValueCode(2, 0x3b6a57b2, 25) == 0x392;
    assert ValueCode(2, 0x3b6a57b2, 30) == 0x320;
    assert m == 30;
  }

  lemma Bits1_0()
    ensures Bit(0x26508e6d, 0) && !Bit(0x26508e6d, 1) && Bit(0x26508e6d, 2) && Bit(0x26508e6d, 3) && !Bit(0x26508e6d, 4)
  {
  }

  lemma Bits1_1()
    ensures Bit(0x26508e6d, 5) && Bit(0x26508e6d, 6) && !Bit(0x26508e6d, 7) && !Bit(0x26508e6d, 8) && Bit(0x26508e6d, 9)
  {
    BitsAbove(0x26508e6d, 0x1328473, 1, 0, 5);
    BitsAbove(0x26508e6d, 0x1328473, 1, 1, 6);
    BitsAbove(0x26508e6d, 0x1328473, 1, 2, 7);
    BitsAbove(0x26508e6d, 0x1328473, 1, 3, 8);
    BitsAbove(0x26508e6d, 0x1328473, 1, 4, 9);
  }

  lemma Bits1_2()
    ensures Bit(0x26508e6d, 10) && Bit(0x26508e6d, 11) && !Bit(0x26508e6d, 12) && !Bit(0x26508e6d, 13)
    ensures !Bit(0x26508e6d, 14)
  {
    BitsAbove(0x26508e6d, 0x99423, 2, 0, 10);
    BitsAbove(0x26508e6d, 0x99423, 2, 1, 11);
    BitsAbove(0x26508e6d, 0x99423, 2, 2, 12);
    BitsAbove(0x26508e6d, 0x99423, 2, 3, 13);
    BitsAbove(0x26508e6d, 0x99423, 2, 4, 14);
  }

  lemma Bits1_3()
    ensures Bit(0x26508e6d, 15) && !Bit(0x26508e6d, 16) && !Bit(0x26508e6d, 17) && !Bit(0x26508e6d, 18)
    ensures !Bit(0x26508e6d, 19)
  {
    BitsAbove(0x26508e6d, 0x4ca1, 3, 0, 15);
    BitsAbove(0x26508e6d, 0x4ca1, 3, 1, 16);
    BitsAbove(0x26508e6d, 0x4ca1, 3, 2, 17);
    BitsAbove(0x26508e6d, 0x4ca1, 3, 3, 18);
    BitsAbove(0x26508e6d, 0x4ca1, 3, 4, 19);
  }

  lemma Bits1_4()
    ensures Bit(0x26508e6d, 20) && !Bit(0x26508e6d, 21) && Bit(0x26508e6d, 22) && !Bit(0x26508e6d, 23)
    ensures !Bit(0x26508e6d, 24)
  {
    BitsAbove(0x26508e6d, 0x265, 4, 0, 20);
    BitsAbove(0x26508e6d, 0x265, 4, 1, 21);
    BitsAbove(0x26508e6d, 0x265, 4, 2, 22);
    BitsAbove(0x26508e6d, 0x265, 4, 3, 23);
    BitsAbove(0x26508e6d, 0x265, 4, 4, 24);
  }

  lemma Bits1_5()
    ensures Bit(0x26508e6d, 25) && Bit(0x26508e6d, 26) && !Bit(0x26508e6d, 27) && !Bit(0x26508e6d, 28)
    ensures Bit(0x26508e6d, 29)
  {
    BitsAbove(0x26508e6d, 0x13, 5, 0, 25);
    BitsAbove(0x26508e6d, 0x13, 5, 1, 26);
    BitsAbove(0x26508e6d, 0x13, 5, 2, 27);
    BitsAbove(0x26508e6d, 0x13, 5, 3, 28);
    BitsAbove(0x26508e6d, 0x13, 5, 4, 29);
  }

  lemma Sum0_1(m: nat)
    requires 29 < m < 31
    ensures ValueCode(0, Generator(1), m) == WeightCode(0, m + 1)
  {
    Bits1_0();
    Weights0_0();
    Bits1_1();
    Weights0_1();
    Bits1_2();
    Weights0_2();
    Bits1_3();
    Weights0_3();
    Bits1_4();
    Weights0_4();
    Bits1_5();
    Weights0_5();
    Weights0_6();
    assert ValueCode(0, 0x26508e6d, 5) == 0xe5;
    assert ValueCode(0, 0x26508e6d, 10) == 0x243;
    assert ValueCode(0, 0x26508e6d, 15) == 0x369;
    assert ValueCode(0, 0x26508e6d, 20) == 0xf4;
    assert ValueCode(0, 0x26508e6d, 25) == 0x2bc;
    assert ValueCode(0, 0x26508e6d, 30) == 0xf7;
    assert m == 30;
  }

  lemma Sum1_1(m: nat)
    requires 29 < m < 31
    ensures ValueCode(1, Generator(1), m) == WeightCode(1, m + 1)
  {
    Bits1_0();
    Weights1_0();
    Bits1_1();
    Weights1_1();
    Bits1_2();
    Weights1_2();
    Bits1_3();
    Weights1_3();
    Bits1_4();
    Weights1_4();
    Bits1_5();
    Weights1_5();
    Weights1_6();
    assert ValueCode(1, 0x26508e6d, 5) == 0xe5;
    assert ValueCode(1, 0x26508e6d, 10) == 0x38c;
    assert ValueCode(1, 0x26508e6d, 15) == 0x101;
    assert ValueCode(1, 0x26508e6d, 20) == 0x358;
    assert ValueCode(1, 0x26508e6d, 25) == 0x22e;
    assert ValueCode(1, 0x26508e6d, 30) == 0xa2;
    assert m == 30;
  }

  lemma Sum2_1(m: nat)
    requires 29 < m < 31
    ensures ValueCode(2, Generator(1), m) == WeightCode(2, m + 1)
  {
    Bits1_0();
    Weights2_0();
    Bits1_1();
    Weights2_1();
    Bits1_2();
    Weights2_2();
    Bits1_3();
    Weights2_3();
    Bits1_4();
    Weights2_4();
    Bits1_5();
    Weights2_5();
    Weights2_6();
    assert ValueCode(2, 0x26508e6d, 5) == 0xe5;
    assert ValueCode(2, 0x26508e6d, 10) == 0x12;
    assert ValueCode(2, 0x26508e6d, 15) == 0x49;
    assert ValueCode(2, 0x26508e6d, 20) == 0x7a;
    assert ValueCode(2, 0x26508e6d, 25) == 0x3c4;
    assert ValueCode(2, 0x26508e6d, 30) == 0x13c;
    assert m == 30;
  }

  lemma Bits2_0()
    ensures !Bit(0x1ea119fa, 0) && Bit(0x1ea119fa, 1) && !Bit(0x1ea119fa, 2) && Bit(0x1ea119fa, 3) && Bit(0x1ea119fa, 4)
  {
  }

  lemma Bits2_1()
    ensures Bit(0x1ea119fa, 5) && Bit(0x1ea119fa, 6) && Bit(0x1ea119fa, 7) && Bit(0x1ea119fa, 8) && !Bit(0x1ea119fa, 9)
  {
    BitsAbove(0x1ea119fa, 0xf508cf, 1, 0, 5);
    BitsAbove(0x1ea119fa, 0xf508cf, 1, 1, 6);
    BitsAbove(0x1ea119fa, 0xf508cf, 1, 2, 7);
    BitsAbove(0x1ea119fa, 0xf508cf, 1, 3, 8);
    BitsAbove(0x1ea119fa, 0xf508cf, 1, 4, 9);
  }

  lemma Bits2_2()
    ensures !Bit(0x1ea119fa, 10) && Bit(0x1ea119fa, 11) && Bit(0x1ea119fa, 12) && !Bit(0x1ea119fa, 13)
    ensures !Bit(0x1ea119fa, 14)
  {
    BitsAbove(0x1ea119fa, 0x7a846, 2, 0, 10);
    BitsAbove(0x1ea119fa, 0x7a846, 2, 1, 11);
    BitsAbove(0x1ea119fa, 0x7a846, 2, 2, 12);
    BitsAbove(0x1ea119fa, 0x7a846, 2, 3, 13);
    BitsAbove(0x1ea119fa, 0x7a846, 2, 4, 14);
  }

  lemma Bits2_3()
    ensures !Bit(0x1ea119fa, 15) && Bit(0x1ea119fa, 16) && !Bit(0x1ea119fa, 17) && !Bit(0x1ea119fa, 18)
    ensures !Bit(0x1ea119fa, 19)
  {
    BitsAbove(0x1ea119fa, 0x3d42, 3, 0, 15);
    BitsAbove(0x1ea119fa, 0x3d42, 3, 1, 16);
    BitsAbove(0x1ea119fa, 0x3d42, 3, 2, 17);
    BitsAbove(0x1ea119fa, 0x3d42, 3, 3, 18);
    BitsAbove(0x1ea119fa, 0x3d42, 3, 4, 19);
  }

  lemma Bits2_4()
    ensures !Bit(0x1ea119fa, 20) && Bit(0x1ea119fa, 21) && !Bit(0x1ea119fa, 22) && Bit(0x1ea119fa, 23)
    ensures !Bit(0x1ea119fa, 24)
  {
    BitsAbove(0x1ea119fa, 0x1ea, 4, 0, 20);
    BitsAbove(0x1ea119fa, 0x1ea, 4, 1, 21);
    BitsAbove(0x1ea119fa, 0x1ea, 4, 2, 22);
    BitsAbove(0x1ea119fa, 0x1ea, 4, 3, 23);
    BitsAbove(0x1ea119fa, 0x1ea, 4, 4, 24);
  }

  lemma Bits2_5()
    ensures Bit(0x1ea119fa, 25) && Bit(0x1ea119fa, 26) && Bit(0x1ea119fa, 27) && Bit(0x1ea119fa, 28)
    ensures !Bit(0x1ea119fa, 29)
  {
    BitsAbove(0x1ea119fa, 0xf, 5, 0, 25);
    BitsAbove(0x1ea119fa, 0xf, 5, 1, 26);
    BitsAbove(0x1ea119fa, 0xf, 5, 2, 27);
    BitsAbove(0x1ea119fa, 0xf, 5, 3, 28);
    BitsAbove(0x1ea119fa, 0xf, 5, 4, 29);
  }

  lemma Sum0_2(m: nat)
    requires 29 < m < 31
    ensures ValueCode(0, Generator(2), m) == WeightCode(0, m + 2)
  {
    Bits2_0();
    Weights0_0();
    Bits2_1();
    Weights0_1();
    Bits2_2();
    Weights0_2();
    Bits2_3();
    Weights0_3();
    Bits2_4();
    Weights0_4();
    Bits2_5();
    Weights0_5();
    Weights0_6();
    assert ValueCode(0, 0x1ea119fa, 5) == 0x208;
    assert ValueCode(0, 0x1ea119fa, 10) == 0x22f;
    assert ValueCode(0, 0x1ea119fa, 15) == 0x4e;
    assert ValueCode(0, 0x1ea119fa, 20) == 0x34b;
    assert ValueCode(0, 0x1ea119fa, 25) == 0x2b4;
    assert ValueCode(0, 0x1ea119fa, 30) == 0x9c;
    assert m == 30;
  }

  lemma Sum1_2(m: nat)
    requires 29 < m < 31
    ensures ValueCode(1, Generator(2), m) == WeightCode(1, m + 2)
  {
    Bits2_0();
    Weights1_0();
    Bits2_1();
    Weights1_1();
    Bits2_2();
    Weights1_2();
    Bits2_3();
    Weights1_3();
    Bits2_4();
    Weights1_4();
    Bits2_5();
    Weights1_5();
    Weights1_6();
    assert ValueCode(1, 0x1ea119fa, 5) == 0x208;
    assert ValueCode(1, 0x1ea119fa, 10) == 0x246;
    assert ValueCode(1, 0x1ea119fa, 15) == 0x1ad;
    assert ValueCode(1, 0x1ea119fa, 20) == 0x111;
    assert ValueCode(1, 0x1ea119fa, 25) == 0x50;
    assert ValueCode(1, 0x1ea119fa, 30) == 0x2f6;
    assert m == 30;
  }

  lemma Sum2_2(m: nat)
    requires 29 < m < 31
    ensures ValueCode(2, Generator(2), m) == WeightCode(2, m + 2)
  {
    Bits2_0();
    Weights2_0();
    Bits2_1();
    Weights2_1();
    Bits2_2();
    Weights2_2();
    Bits2_3();
    Weights2_3();
    Bits2_4();
    Weights2_4();
    Bits2_5();
    Weights2_5();
    Weights2_6();
    assert ValueCode(2, 0x1ea119fa, 5) == 0x208;
    assert ValueCode(2, 0x1ea119fa, 10) == 0x294;
    assert ValueCode(2, 0x1ea119fa, 15) == 0x172;
    assert ValueCode(2, 0x1ea119fa, 20) == 0x2b7;
    assert ValueCode(2, 0x1ea119fa, 25) == 0x279;
    assert ValueCode(2, 0x1ea119fa, 30) == 0x3e4;
    assert m == 30;
  }

  lemma Bits3_0()
    ensures Bit(0x3d4233dd, 0) && !Bit(0x3d4233dd, 1) && Bit(0x3d4233dd, 2) && Bit(0x3d4233dd, 3) && Bit(0x3d4233dd, 4)
  {
  }

  lemma Bits3_1()
    ensures !Bit(0x3d4233dd, 5) && Bit(0x3d4233dd, 6) && Bit(0x3d4233dd, 7) && Bit(0x3d4233dd, 8) && Bit(0x3d4233dd, 9)
  {
    BitsAbove(0x3d4233dd, 0x1ea119e, 1, 0, 5);
    BitsAbove(0x3d4233dd, 0x1ea119e, 1, 1, 6);
    BitsAbove(0x3d4233dd, 0x1ea119e, 1, 2, 7);
    BitsAbove(0x3d4233dd, 0x1ea119e, 1, 3, 8);
    BitsAbove(0x3d4233dd, 0x1ea119e, 1, 4, 9);
  }

  lemma Bits3_2()
    ensures !Bit(0x3d4233dd, 10) && !Bit(0x3d4233dd, 11) && Bit(0x3d4233dd, 12) && Bit(0x3d4233dd, 13)
    ensures !Bit(0x3d4233dd, 14)
  {
    BitsAbove(0x3d4233dd, 0xf508c, 2, 0, 10);
    BitsAbove(0x3d4233dd, 0xf508c, 2, 1, 11);
    BitsAbove(0x3d4233dd, 0xf508c, 2, 2, 12);
    BitsAbove(0x3d4233dd, 0xf508c, 2, 3, 13);
    BitsAbove(0x3d4233dd, 0xf508c, 2, 4, 14);
  }

  lemma Bits3_3()
    ensures !Bit(0x3d4233dd, 15) && !Bit(0x3d4233dd, 16) && Bit(0x3d4233dd, 17) && !Bit(0x3d4233dd, 18)
    ensures !Bit(0x3d4233dd, 19)
  {
    BitsAbove(0x3d4233dd, 0x7a84, 3, 0, 15);
    BitsAbove(0x3d4233dd, 0x7a84, 3, 1, 16);
    BitsAbove(0x3d4233dd, 0x7a84, 3, 2, 17);
    BitsAbove(0x3d4233dd, 0x7a84, 3, 3, 18);
    BitsAbove(0x3d4233dd, 0x7a84, 3, 4, 19);
  }

  lemma Bits3_4()
    ensures !Bit(0x3d4233dd, 20) && !Bit(0x3d4233dd, 21) && Bit(0x3d4233dd, 22) && !Bit(0x3d4233dd, 23)
    ensures Bit(0x3d4233dd, 24)
  {
    BitsAbove(0x3d4233dd, 0x3d4, 4, 0, 20);
    BitsAbove(0x3d4233dd, 0x3d4, 4, 1, 21);
    BitsAbove(0x3d4233dd, 0x3d4, 4, 2, 22);
    BitsAbove(0x3d4233dd, 0x3d4, 4, 3, 23);
    BitsAbove(0x3d4233dd, 0x3d4, 4, 4, 24);
  }

  lemma Bits3_5()
    ensures !Bit(0x3d4233dd, 25) && Bit(0x3d4233dd, 26) && Bit(0x3d4233dd, 27) && Bit(0x3d4233dd, 28)
    ensures Bit(0x3d4233dd, 29)
  {
    BitsAbove(0x3d4233dd, 0x1e, 5, 0, 25);
    BitsAbove(0x3d4233dd, 0x1e, 5, 1, 26);
    BitsAbove(0x3d4233dd, 0x1e, 5, 2, 27);
    BitsAbove(0x3d4233dd, 0x1e, 5, 3, 28);
    BitsAbove(0x3d4233dd, 0x1e, 5, 4, 29);
  }

  lemma Sum0_3(m: nat)
    requires 29 < m < 31
    ensures ValueCode(0, Generator(3), m) == WeightCode(0, m + 3)
  {
    Bits3_0();
    Weights0_0();
    Bits3_1();
    Weights0_1();
    Bits3_2();
    Weights0_2();
    Bits3_3();
    Weights0_3();
    Bits3_4();
    Weights0_4();
    Bits3_5();
    Weights0_5();
    Weights0_6();
    assert ValueCode(0, 0x3d4233dd, 5) == 0x1c7;
    assert ValueCode(0, 0x3d4233dd, 10) == 0x11d;
    assert ValueCode(0, 0x3d4233dd, 15) == 0x1b4;
    assert ValueCode(0, 0x3d4233dd, 20) == 0x2c8;
    assert ValueCode(0, 0x3d4233dd, 25) == 0x2b3;
    assert ValueCode(0, 0x3d4233dd, 30) == 0x368;
    assert m == 30;
  }

  lemma Sum1_3(m: nat)
    requires 29 < m < 31
    ensures ValueCode(1, Generator(3), m) == WeightCode(1, m + 3)
  {
    Bits3_0();
    Weights1_0();
    Bits3_1();
    Weights1_1();
    Bits3_2();
    Weights1_2();
    Bits3_3();
    Weights1_3();
    Bits3_4();
    Weights1_4();
    Bits3_5();
    Weights1_5();
    Weights1_6();
    assert ValueCode(1, 0x3d4233dd, 5) == 0x1c7;
    assert ValueCode(1, 0x3d4233dd, 10) == 0x73;
    assert ValueCode(1, 0x3d4233dd, 15) == 0x2d7;
    assert ValueCode(1, 0x3d4233dd, 20) == 0x1a3;
    assert ValueCode(1, 0x3d4233dd, 25) == 0x36;
    assert ValueCode(1, 0x3d4233dd, 30) == 0x11;
    assert m == 30;
  }

  lemma Sum2_3(m: nat)
    requires 29 < m < 31
    ensures ValueCode(2, Generator(3), m) == WeightCode(2, m + 3)
  {
    Bits3_0();
    Weights2_0();
    Bits3_1();
    Weights2_1();
    Bits3_2();
    Weights2_2();
    Bits3_3();
    Weights2_3();
    Bits3_4();
    Weights2_4();
    Bits3_5();
    Weights2_5();
    Weights2_6();
    assert ValueCode(2, 0x3d4233dd, 5) == 0x1c7;
    assert ValueCode(2, 0x3d4233dd, 10) == 0x2af;
    assert ValueCode(2, 0x3d4233dd, 15) == 0x250;
    assert ValueCode(2, 0x3d4233dd, 20) == 0x164;
    assert ValueCode(2, 0x3d4233dd, 25) == 0xa0;
    assert ValueCode(2, 0x3d4233dd, 30) == 0x265;
    assert m == 30;
  }

  lemma Bits4_0()
    ensures Bit(0x2a1462b3, 0) && Bit(0x2a1462b3, 1) && !Bit(0x2a1462b3, 2) && !Bit(0x2a1462b3, 3) && Bit(0x2a1462b3, 4)
  {
  }

  lemma Bits4_1()
    ensures Bit(0x2a1462b3, 5) && !Bit(0x2a1462b3, 6) && Bit(0x2a1462b3, 7) && !Bit(0x2a1462b3, 8) && Bit(0x2a1462b3, 9)
  {
    BitsAbove(0x2a1462b3, 0x150a315, 1, 0, 5);
    BitsAbove(0x2a1462b3, 0x150a315, 1, 1, 6);
    BitsAbove(0x2a1462b3, 0x150a315, 1, 2, 7);
    BitsAbove(0x2a1462b3, 0x150a315, 1, 3, 8);
    BitsAbove(0x2a1462b3, 0x150a315, 1, 4, 9);
  }

  lemma Bits4_2()
    ensures !Bit(0x2a1462b3, 10) && !Bit(0x2a1462b3, 11) && !Bit(0x2a1462b3, 12) && Bit(0x2a1462b3, 13)
    ensures Bit(0x2a1462b3, 14)
  {
    BitsAbove(0x2a1462b3, 0xa8518, 2, 0, 10);
    BitsAbove(0x2a1462b3, 0xa8518, 2, 1, 11);
    BitsAbove(0x2a1462b3, 0xa8518, 2, 2, 12);
    BitsAbove(0x2a1462b3, 0xa8518, 2, 3, 13);
    BitsAbove(0x2a1462b3, 0xa8518, 2, 4, 14);
  }

  lemma Bits4_3()
    ensures !Bit(0x2a1462b3, 15) && !Bit(0x2a1462b3, 16) && !Bit(0x2a1462b3, 17) && Bit(0x2a1462b3, 18)
    ensures !Bit(0x2a1462b3, 19)
  {
    BitsAbove(0x2a1462b3, 0x5428, 3, 0, 15);
    BitsAbove(0x2a1462b3, 0x5428, 3, 1, 16);
    BitsAbove(0x2a1462b3, 0x5428, 3, 2, 17);
    BitsAbove(0x2a1462b3, 0x5428, 3, 3, 18);
    BitsAbove(0x2a1462b3, 0x5428, 3, 4, 19);
  }

  lemma Bits4_4()
    ensures Bit(0x2a1462b3, 20) && !Bit(0x2a1462b3, 21) && !Bit(0x2a1462b3, 22) && !Bit(0x2a1462b3, 23)
    ensures !Bit(0x2a1462b3, 24)
  {
    BitsAbove(0x2a1462b3, 0x2a1, 4, 0, 20);
    BitsAbove(0x2a1462b3, 0x2a1, 4, 1, 21);
    BitsAbove(0x2a1462b3, 0x2a1, 4, 2, 22);
    BitsAbove(0x2a1462b3, 0x2a1, 4, 3, 23);
    BitsAbove(0x2a1462b3, 0x2a1, 4, 4, 24);
  }

  lemma Bits4_5()
    ensures Bit(0x2a1462b3, 25) && !Bit(0x2a1462b3, 26) && Bit(0x2a1462b3, 27) && !Bit(0x2a1462b3, 28)
    ensures Bit(0x2a1462b3, 29)
  {
    BitsAbove(0x2a1462b3, 0x15, 5, 0, 25);
    BitsAbove(0x2a1462b3, 0x15, 5, 1, 26);
    BitsAbove(0x2a1462b3, 0x15, 5, 2, 27);
    BitsAbove(0x2a1462b3, 0x15, 5, 3, 28);
    BitsAbove(0x2a1462b3, 0x15, 5, 4, 29);
  }

  lemma Sum0_4(m: nat)
    requires 29 < m < 31
    ensures ValueCode(0, Generator(4), m) == WeightCode(0, m + 4)
  {
    Bits4_0();
    Weights0_0();
    Bits4_1();
    Weights0_1();
    Bits4_2();
    Weights0_2();
    Bits4_3();
    Weights0_3();
    Bits4_4();
    Weights0_4();
    Bits4_5();
    Weights0_5();
    Weights0_6();
    assert ValueCode(0, 0x2a1462b3, 5) == 0x6e;
    assert ValueCode(0, 0x2a1462b3, 10) == 0x2b5;
    assert ValueCode(0, 0x2a1462b3, 15) == 0x393;
    assert ValueCode(0, 0x2a1462b3, 20) == 0x18f;
    assert ValueCode(0, 0x2a1462b3, 25) == 0x275;
    assert ValueCode(0, 0x2a1462b3, 30) == 0x103;
    assert m == 30;
  }

  lemma Sum1_4(m: nat)
    requires 29 < m < 31
    ensures ValueCode(1, Generator(4), m) == WeightCode(1, m + 4)
  {
    Bits4_0();
    Weights1_0();
    Bits4_1();
    Weights1_1();
    Bits4_2();
    Weights1_2();
    Bits4_3();
    Weights1_3();
    Bits4_4();
    Weights1_4();
    Bits4_5();
    Weights1_5();
    Weights1_6();
    assert ValueCode(1, 0x2a1462b3, 5) == 0x6e;
    assert ValueCode(1, 0x2a1462b3, 10) == 0x3fd;
    assert ValueCode(1, 0x2a1462b3, 15) == 0x140;
    assert ValueCode(1, 0x2a1462b3, 20) == 0x35b;
    assert ValueCode(1, 0x2a1462b3, 25) == 0x199;
    assert ValueCode(1, 0x2a1462b3, 30) == 0x143;
    assert m == 30;
  }

  lemma Sum2_4(m: nat)
    requires 29 < m < 31
    ensures ValueCode(2, Generator(4), m) == WeightCode(2, m + 4)
  {
    Bits4_0();
    Weights2_0();
    Bits4_1();
    Weights2_1();
    Bits4_2();
    Weights2_2();
    Bits4_3();
    Weights2_3();
    Bits4_4();
    Weights2_4();
    Bits4_5();
    Weights2_5();
    Weights2_6();
    assert ValueCode(2, 0x2a1462b3, 5) == 0x6e;
    assert ValueCode(2, 0x2a1462b3, 10) == 0x16d;
    assert ValueCode(2, 0x2a1462b3, 15) == 0x1f6;
    assert ValueCode(2, 0x2a1462b3, 20) == 0x3d5;
    assert ValueCode(2, 0x2a1462b3, 25) == 0x6c;
    assert ValueCode(2, 0x2a1462b3, 30) == 0x3b8;
    assert m == 30;
  }

  lemma Sums0(n: nat, m: nat)
    requires n < 5 && 29 < m < 31
    ensures ValueCode(0, Generator(n), m) == WeightCode(0, m + n)
  {
    match n
    case 0 => Sum0_0(m);
    case 1 => Sum0_1(m);
    case 2 => Sum0_2(m);
    case 3 => Sum0_3(m);
    case 4 => Sum0_4(m);
  }

  lemma Sums1(n: nat, m: nat)
    requires n < 5 && 29 < m < 31
    ensures ValueCode(1, Generator(n), m) == WeightCode(1, m + n)
  {
    match n
    case 0 => Sum1_0(m);
    case 1 => Sum1_1(m);
    case 2 => Sum1_2(m);
    case 3 => Sum1_3(m);
    case 4 => Sum1_4(m);
  }

  lemma Sums2(n: nat, m: nat)
    requires n < 5 && 29 < m < 31
    ensures ValueCode(2, Generator(n), m) == WeightCode(2, m + n)
  {
    match n
    case 0 => Sum2_0(m);
    case 1 => Sum2_1(m);
    case 2 => Sum2_2(m);
    case 3 => Sum2_3(m);
    case 4 => Sum2_4(m);
  }

  lemma Sums(k: nat, n: nat, m: nat)
    requires k < 3 && n < 5 && 29 < m < 31
    ensures ValueCode(k, Generator(n), m) == WeightCode(k, m + n)
  {
    match k
    case 0 => Sums0(n, m);
    case 1 => Sums1(n, m);
    case 2 => Sums2(n, m);
  }

  lemma RootsCompose()
    ensures Composed(ER, E, R) && Composed(EER, E, ER)
  {
  }

  lemma RootsLinear(k: nat)
    ensures Additive(Add, Nil(), Root(k))
  {
    ELinear();
    RLinear();
    RootsCompose();
    AdditiveComposed(Add, Nil(), ER, E, R);
    AdditiveComposed(Add, Nil(), EER, E, ER);
  }

  /** The generator vanishes at the three roots. */
  lemma RootsAreRoots(k: nat)
    requires k < 3
    ensures IsRoot(Root(k))
  {
    RootsLinear(k);
    forall n: nat, m: nat | n < 5 && 29 < m < 31
      ensures Value(Root(k), FromInt(Generator(n)), m) == Weight(Root(k), m + n)
    {
      Sums(k, n, m);
      ValueIs(k, Generator(n), m);
      WeightIs(k, m + n);
      CodesOne(30, WeightCode(k, m + n), Value(Root(k), FromInt(Generator(n)), m), Weight(Root(k), m + n));
    }
  }
}
