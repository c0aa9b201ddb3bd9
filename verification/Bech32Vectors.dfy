/** The checksum on concrete texts, computed on a register of six symbols. */
module Bech32Vectors {

  import opened Common
  import opened Closed
  import opened Words
  import opened Bech32
  import opened Bech32Text
  import Powers = Bits

  // ----- symbols

  function BitAt(d: bv5, i: nat): bool {
    match i
    case 0 => d & 1 != 0
    case 1 => d & 2 != 0
    case 2 => d & 4 != 0
    case 3 => d & 8 != 0
    case 4 => d & 16 != 0
    case _ => false
  }

  function Sym(d: bv5): (w: Word)
    ensures forall i :: 0 <= i < 32 ==> w.b[i] == BitAt(d, i)
  {
    Bits.Bits(seq(32, i requires 0 <= i < 32 => BitAt(d, i)))
  }

  lemma XorAt(x: bv5, y: bv5, i: nat)
    ensures BitAt(x ^ y, i) == (BitAt(x, i) != BitAt(y, i))
  {
  }

  lemma SymXor(x: bv5, y: bv5)
    ensures Sym(x ^ y) == Xor(Sym(x), Sym(y))
  {
    forall i | 0 <= i < 32 ensures Sym(x ^ y).b[i] == Xor(Sym(x), Sym(y)).b[i] { XorAt(x, y, i); }
    SameBits(Sym(x ^ y), Xor(Sym(x), Sym(y)));
  }

  lemma SymZero()
    ensures Sym(0) == Zero()
  {
    SameBits(Sym(0), Zero());
  }

  lemma NumberBits(d: nat, i: nat)
    requires d < 32 && i < 5
    ensures BitAt(d as bv5, i) == Bit(d, i)
  {
    if d < 16 { LowNumber(d, i); } else { HighNumber(d, i); }
  }

  lemma LowNumber(d: nat, i: nat)
    requires d < 16 && i < 5
    ensures BitAt(d as bv5, i) == Bit(d, i)
  {
    if d < 8 { assert d in {0, 1, 2, 3, 4, 5, 6, 7}; } else { assert d in {8, 9, 10, 11, 12, 13, 14, 15}; }
  }

  lemma HighNumber(d: nat, i: nat)
    requires 16 <= d < 32 && i < 5
    ensures BitAt(d as bv5, i) == Bit(d, i)
  {
    if d < 24 { assert d in {16, 17, 18, 19, 20, 21, 22, 23}; } else { assert d in {24, 25, 26, 27, 28, 29, 30, 31}; }
  }

  /** A symbol is read from its number. */
  lemma SymIs(d: nat)
    requires d < 32
    ensures Sym(d as bv5) == FromInt(d)
  {
    assert Powers.Pow2(5) == 32;
    FromIntWithin(d, 5);
    forall i | 0 <= i < 32 ensures Sym(d as bv5).b[i] == FromInt(d).b[i] { if i < 5 { NumberBits(d, i); } }
    SameBits(Sym(d as bv5), FromInt(d));
  }

  // ----- the register

  datatype Register = Register(a: bv5, b: bv5, c: bv5, d: bv5, e: bv5, f: bv5)

  ghost function Groups(r: Register): (ds: seq<Word>)
    ensures |ds| == 6
  {
    [Sym(r.a), Sym(r.b), Sym(r.c), Sym(r.d), Sym(r.e), Sym(r.f)]
  }

  ghost function WordOf(r: Register): Word { Pack(Groups(r)) }

  function Plus(x: Register, y: Register): Register {
    Register(x.a ^ y.a, x.b ^ y.b, x.c ^ y.c, x.d ^ y.d, x.e ^ y.e, x.f ^ y.f)
  }

  lemma PlusGroups(x: Register, y: Register, k: nat)
    requires k < 6
    ensures Groups(Plus(x, y))[k] == Xor(Groups(x)[k], Groups(y)[k])
  {
    SymXor(x.a, y.a);
    SymXor(x.b, y.b);
    SymXor(x.c, y.c);
    SymXor(x.d, y.d);
    SymXor(x.e, y.e);
    SymXor(x.f, y.f);
  }

  lemma PackXor(us: seq<Word>, vs: seq<Word>, ws: seq<Word>)
    requires |us| == |vs| == |ws| == 6 && forall k :: 0 <= k < 6 ==> ws[k] == Xor(us[k], vs[k])
    ensures Pack(ws) == Xor(Pack(us), Pack(vs))
  {
    forall i | 0 <= i < 32 ensures Pack(ws).b[i] == Xor(Pack(us), Pack(vs)).b[i] {
      if i < 30 { assert ws[5 - i / 5] == Xor(us[5 - i / 5], vs[5 - i / 5]); }
    }
    SameBits(Pack(ws), Xor(Pack(us), Pack(vs)));
  }

  lemma WordPlus(x: Register, y: Register)
    ensures WordOf(Plus(x, y)) == Xor(WordOf(x), WordOf(y))
  {
    forall k | 0 <= k < 6 ensures Groups(Plus(x, y))[k] == Xor(Groups(x)[k], Groups(y)[k]) { PlusGroups(x, y, k); }
    PackXor(Groups(x), Groups(y), Groups(Plus(x, y)));
  }

  /** Five groups move up and the new symbol takes the last place. */
  lemma PackShift(ds: seq<Word>, v: Word)
    requires |ds| == 6 && Within(v, 5)
    ensures Xor(Shifted(Pack(ds)), v) == Pack(ds[1..] + [v])
  {
    var c, es := Xor(Shifted(Pack(ds)), v), ds[1..] + [v];
    forall i | 0 <= i < 32 ensures c.b[i] == Pack(es).b[i] {
      if 5 <= i < 30 {
        var k := 5 - i / 5;
        assert (i - 5) / 5 == i / 5 - 1 && (i - 5) % 5 == i % 5 && es[k] == ds[k + 1];
      }
    }
    SameBits(c, Pack(es));
  }

  lemma PackTop(ds: seq<Word>)
    requires |ds| == 6 && Within(ds[0], 5)
    ensures ShiftRight(Pack(ds), 25) == ds[0]
  {
    forall i | 0 <= i < 32 ensures ShiftRight(Pack(ds), 25).b[i] == ds[0].b[i] { if i < 5 { PackedBit(ds, 0, i); } }
    SameBits(ShiftRight(Pack(ds), 25), ds[0]);
  }

  // ----- the generator

  const ZERO := Register(0, 0, 0, 0, 0, 0)

  function Multiple(n: nat): Register {
    match n
    case 0 => Register(29, 22, 20, 21, 29, 18)
    case 1 => Register(19, 5, 1, 3, 19, 13)
    case 2 => Register(15, 10, 2, 6, 15, 26)
    case 3 => Register(30, 20, 4, 12, 30, 29)
    case _ => Register(21, 1, 8, 24, 21, 19)
  }

  function Chosen(on: bool, r: Register): Register { if on then r else ZERO }

  function Feed(a: bv5): Register {
    Plus(Chosen(a & 1 != 0, Multiple(0)),
         Plus(Chosen(a & 2 != 0, Multiple(1)),
              Plus(Chosen(a & 4 != 0, Multiple(2)),
                   Plus(Chosen(a & 8 != 0, Multiple(3)), Chosen(a & 16 != 0, Multiple(4))))))
  }

  function Next(r: Register, v: bv5): Register { Plus(Register(r.b, r.c, r.d, r.e, r.f, v), Feed(r.a)) }

  lemma Halved(q: nat, d: nat, y: nat)
    requires y == 2 * q + d
    ensures y % 2 == d % 2 && y / 2 == q + d / 2
  {
  }

  lemma {:induction false} BitBelow(x: nat, d: nat, k: nat, i: nat)
    requires d < Powers.Pow2(k) && i < k
    ensures Bit(Powers.Pow2(k) * x + d, i) == Bit(d, i)
    decreases i
  {
    Halved(Powers.Pow2(k - 1) * x, d, Powers.Pow2(k) * x + d);
    if i > 0 { BitBelow(x, d / 2, k - 1, i - 1); }
  }

  lemma {:induction false} BitAbove(x: nat, d: nat, k: nat, i: nat)
    requires d < Powers.Pow2(k)
    ensures Bit(Powers.Pow2(k) * x + d, i + k) == Bit(x, i)
    decreases k
  {
    if k == 0 {
      assert Powers.Pow2(0) * x == x;
    } else {
      Halved(Powers.Pow2(k - 1) * x, d, Powers.Pow2(k) * x + d);
      BitAbove(x, d / 2, k - 1, i);
    }
  }

  /** A number is the word of its base-32 digits. */
  ghost function Number(ds: seq<nat>): nat { if ds == [] then 0 else 32 * Number(ds[..|ds| - 1]) + ds[|ds| - 1] }

  lemma {:induction false} NumberBit(ds: seq<nat>, i: nat)
    requires forall k :: 0 <= k < |ds| ==> ds[k] < 32
    ensures Bit(Number(ds), i) == (i < 5 * |ds| && Bit(ds[|ds| - 1 - i / 5], i % 5))
    decreases |ds|
  {
    if ds == [] {
      BitOfZero(i);
    } else {
      var l := |ds| - 1;
      assert Powers.Pow2(5) == 32;
      if i < 5 {
        BitBelow(Number(ds[..l]), ds[l], 5, i);
      } else {
        BitAbove(Number(ds[..l]), ds[l], 5, i - 5);
        NumberBit(ds[..l], i - 5);
        assert (i - 5) / 5 == i / 5 - 1 && (i - 5) % 5 == i % 5;
      }
    }
  }

  lemma NumberPacks(ds: seq<nat>)
    requires |ds| == 6 && forall k :: 0 <= k < 6 ==> ds[k] < 32
    ensures FromInt(Number(ds)) == Pack(Symbols(ds))
  {
    forall i | 0 <= i < 32 ensures FromInt(Number(ds)).b[i] == Pack(Symbols(ds)).b[i] { NumberBit(ds, i); }
    SameBits(FromInt(Number(ds)), Pack(Symbols(ds)));
  }

  /** The word of six digits. */
  lemma WordIs(a: nat, b: nat, c: nat, d: nat, e: nat, f: nat, x: nat, r: Register)
    requires a < 32 && b < 32 && c < 32 && d < 32 && e < 32 && f < 32
    requires x == 32 * (32 * (32 * (32 * (32 * a + b) + c) + d) + e) + f
    requires r == Register(a as bv5, b as bv5, c as bv5, d as bv5, e as bv5, f as bv5)
    ensures FromInt(x) == WordOf(r)
  {
    NumberIs(a, b, c, d, e, f);
    DigitsPack([a, b, c, d, e, f], x, r);
  }

  lemma DigitsPack(ds: seq<nat>, x: nat, r: Register)
    requires |ds| == 6 && (forall k :: 0 <= k < 6 ==> ds[k] < 32) && x == Number(ds)
    requires r == Register(ds[0] as bv5, ds[1] as bv5, ds[2] as bv5, ds[3] as bv5, ds[4] as bv5, ds[5] as bv5)
    ensures FromInt(x) == WordOf(r)
  {
    NumberPacks(ds);
    GroupsAre(ds, r);
  }

  lemma GroupsAre(ds: seq<nat>, r: Register)
    requires |ds| == 6 && forall k :: 0 <= k < 6 ==> ds[k] < 32
    requires r == Register(ds[0] as bv5, ds[1] as bv5, ds[2] as bv5, ds[3] as bv5, ds[4] as bv5, ds[5] as bv5)
    ensures Symbols(ds) == Groups(r)
  {
    SymIs(ds[0]);
    SymIs(ds[1]);
    SymIs(ds[2]);
    SymIs(ds[3]);
    SymIs(ds[4]);
    SymIs(ds[5]);
  }

  lemma NumberIs(a: nat, b: nat, c: nat, d: nat, e: nat, f: nat)
    ensures Number([a, b, c, d, e, f]) == 32 * (32 * (32 * (32 * (32 * a + b) + c) + d) + e) + f
  {
    var ds := [a, b, c, d, e, f];
    assert ds[..5] == [a, b, c, d, e] && [a, b, c, d, e][..4] == [a, b, c, d] && [a, b, c, d][..3] == [a, b, c];
    assert [a, b, c][..2] == [a, b] && [a, b][..1] == [a] && [a][..0] == [];
    assert Number([a]) == a && Number([a, b]) == 32 * a + b;
    assert Number([a, b, c]) == 32 * (32 * a + b) + c;
    assert Number([a, b, c, d]) == 32 * (32 * (32 * a + b) + c) + d;
  }

  /** The constants in the code are the multiples of the generator, digit by digit. */
  lemma MultipleIs(n: nat, x: nat, r: Register)
    requires n < 5 && x == Generator(n) && r == Multiple(n)
    ensures FromInt(x) == WordOf(r)
  {
    match n
    case 0 => WordIs(29, 22, 20, 21, 29, 18, x, r);
    case 1 => WordIs(19, 5, 1, 3, 19, 13, x, r);
    case 2 => WordIs(15, 10, 2, 6, 15, 26, x, r);
    case 3 => WordIs(30, 20, 4, 12, 30, 29, x, r);
    case 4 => WordIs(21, 1, 8, 24, 21, 19, x, r);
  }

  lemma WordZero()
    ensures WordOf(ZERO) == Zero()
  {
    SymZero();
    SameBits(WordOf(ZERO), Zero());
  }

  lemma PartIs(on: bool, n: nat)
    requires n < 5
    ensures Part(on, FromInt(Generator(n))) == WordOf(Chosen(on, Multiple(n)))
  {
    MultipleIs(n, Generator(n), Multiple(n));
    WordZero();
  }

  function FeedFrom(a: bv5, n: nat): Register
    decreases 5 - n
  {
    if n >= 5 then ZERO else Plus(Chosen(BitAt(a, n), Multiple(n)), FeedFrom(a, n + 1))
  }

  lemma {:induction false} FeedbackIs(a: bv5, n: nat)
    ensures FeedbackFrom(Sym(a), n) == WordOf(FeedFrom(a, n))
    decreases 5 - n
  {
    if n >= 5 {
      WordZero();
    } else {
      FeedbackIs(a, n + 1);
      PartIs(BitAt(a, n), n);
      WordPlus(Chosen(BitAt(a, n), Multiple(n)), FeedFrom(a, n + 1));
    }
  }

  lemma FeedIs(a: bv5)
    ensures FeedFrom(a, 0) == Feed(a)
  {
    assert FeedFrom(a, 4) == Plus(Chosen(a & 16 != 0, Multiple(4)), ZERO);
    assert FeedFrom(a, 4) == Chosen(a & 16 != 0, Multiple(4));
    assert FeedFrom(a, 3) == Plus(Chosen(a & 8 != 0, Multiple(3)), FeedFrom(a, 4));
    assert FeedFrom(a, 2) == Plus(Chosen(a & 4 != 0, Multiple(2)), FeedFrom(a, 3));
    assert FeedFrom(a, 1) == Plus(Chosen(a & 2 != 0, Multiple(1)), FeedFrom(a, 2));
  }

  /** A step of PolyMod is a step of the register. */
  lemma StepIs(r: Register, v: bv5)
    ensures Step(WordOf(r), Sym(v)) == WordOf(Next(r, v))
  {
    var moved := Register(r.b, r.c, r.d, r.e, r.f, v);
    PackTop(Groups(r));
    PackShift(Groups(r), Sym(v));
    assert Groups(r)[1..] + [Sym(v)] == Groups(moved);
    FeedbackIs(r.a, 0);
    FeedIs(r.a);
    WordPlus(moved, Feed(r.a));
  }

  // ----- texts

  /** The word is that of the register; kept closed. */
  ghost predicate Shows(w: Word, r: Register) { forall key: int :: Key(31, key) ==> w == WordOf(r) }

  lemma ShowsNext(w: Word, r: Register, v: nat, d: bv5, r': Register)
    requires Shows(w, r) && v < 32 && d == v as bv5 && r' == Next(r, d)
    ensures Shows(Step(w, FromInt(v)), r')
  {
    assert Key(31, 0);
    SymIs(v);
    StepIs(r, d);
  }

  ghost predicate Reached(vs: seq<nat>, r: Register) { Shows(Run(FromInt(1), Symbols(vs)), r) }

  /** After the symbols `vs` the register is `r`; kept closed. */
  ghost predicate Reaches(vs: seq<nat>, r: Register) { forall key: int :: Key(32, key) ==> Reached(vs, r) }

  lemma Begin(r: Register)
    requires r == Register(0, 0, 0, 0, 0, 1)
    ensures Reaches([], r)
  {
    WordIs(0, 0, 0, 0, 0, 1, 1, r);
    assert Symbols([]) == [];
  }

  lemma SymbolsNext(us: seq<nat>, v: nat)
    ensures Symbols(us + [v]) == Symbols(us) + [FromInt(v)]
  {
  }

  lemma RunNext(c: Word, us: seq<nat>, v: nat)
    ensures Run(c, Symbols(us + [v])) == Step(Run(c, Symbols(us)), FromInt(v))
  {
    SymbolsNext(us, v);
    RunAppend(c, Symbols(us), FromInt(v));
  }

  lemma ReachesNext(us: seq<nat>, r: Register, v: nat, d: bv5, r': Register)
    requires Reached(us, r) && v < 32 && d == v as bv5 && r' == Next(r, d)
    ensures Reached(us + [v], r')
  {
    RunNext(FromInt(1), us, v);
    ShowsNext(Run(FromInt(1), Symbols(us)), r, v, d, r');
  }

  lemma OneMore(us: seq<nat>, r: Register, v: nat, d: bv5, r': Register)
    requires Reaches(us, r) && v < 32 && d == v as bv5 && r' == Next(r, d)
    ensures Reaches(us + [v], r')
  {
    assert Key(32, 0);
    ReachesNext(us, r, v, d, r');
  }

  /** Three symbols more. */
  lemma Three(us: seq<nat>, r: Register, x: nat, r1: Register, y: nat, r2: Register, z: nat, r3: Register)
    returns (vs: seq<nat>)
    requires Reaches(us, r) && x < 32 && y < 32 && z < 32
    requires r1 == Next(r, x as bv5) && r2 == Next(r1, y as bv5) && r3 == Next(r2, z as bv5)
    ensures vs == us + [x, y, z] && Reaches(vs, r3)
  {
    OneMore(us, r, x, x as bv5, r1);
    OneMore(us + [x], r1, y, y as bv5, r2);
    OneMore(us + [x] + [y], r2, z, z as bv5, r3);
    vs := us + [x] + [y] + [z];
  }

  // ----- texts

  function Bytes(s: string): (r: seq<nat>)
    ensures |r| == |s| && forall i :: 0 <= i < |s| ==> r[i] == s[i] as int
  {
    seq(|s|, i requires 0 <= i < |s| => s[i] as int)
  }

  /** What the register shows at the end of a text that passes. */
  function Final(e: Encoding): Register {
    if e.Bech32? then Register(0, 0, 0, 0, 0, 1) else Register(21, 28, 16, 12, 5, 3)
  }

  lemma FinalVerifies(e: Encoding, hrp: seq<nat>, vs: seq<nat>, r: Register)
    requires Reaches(Expand(hrp) + vs, r) && r == Final(e)
    ensures Verified(hrp, vs) == Some(e)
  {
    assert Key(31, 0) && Key(32, 0);
    assert Reached(Expand(hrp) + vs, r);
    if e.Bech32? { WordIs(0, 0, 0, 0, 0, 1, 1, r); } else { WordIs(21, 28, 16, 12, 5, 3, 0x2bc830a3, r); }
    VerifiedIs(e, hrp, vs);
  }

  /** A text whose symbols lead to the right end decodes, and is what encoding gives. */
  lemma TextIs(text: seq<nat>, e: Encoding, hrp: seq<nat>, values: seq<nat>, sum: seq<nat>, r: Register)
    requires text == Text(hrp, values + sum) && LegalHrp(hrp) && FiveBit(values) && FiveBit(sum) && |sum| == 6
    requires Reaches(Expand(hrp) + (values + sum), r) && r == Final(e) && |text| <= 90
    ensures Decoded(text, 90) == Some(Result(e, hrp, values)) && Encoded(e, hrp, values) == text
  {
    FinalVerifies(e, hrp, values + sum, r);
    TextDecodes(Verified, e, hrp, values, sum, 90);
    SpelledIsEncoded(Result(e, hrp, values), sum);
  }

  lemma ShortBech32Runs()
    ensures Reaches([3, 0, 1, 10, 28, 25, 31, 20, 31], Final(Bech32))
  {
    var vs: seq<nat>, r0 := [], Register(0, 0, 0, 0, 0, 1);
    Begin(r0);
    var r3 := Register(0, 0, 1, 3, 0, 1);
    vs := Three(vs, r0, 3, Register(0, 0, 0, 0, 1, 3), 0, Register(0, 0, 0, 1, 3, 0), 1, r3);
    var r6 := Register(30, 22, 21, 31, 1, 11);
    vs := Three(vs, r3, 10, Register(0, 1, 3, 0, 1, 10), 28, Register(1, 3, 0, 1, 10, 28), 25, r6);
    var r9 := Register(0, 0, 0, 0, 0, 1);
    vs := Three(vs, r6, 31, Register(1, 15, 16, 16, 28, 6), 20, Register(18, 6, 4, 9, 27, 6), 31, r9);
    assert vs == [3, 0, 1, 10, 28, 25, 31, 20, 31];
  }

  /** A test vector of BIP 173, section "Test vectors". */
  lemma ShortBech32()
    ensures Decoded(Bytes("a12uel5l"), 90) == Some(Result(Bech32, Bytes("a"), []))
    ensures Encoded(Bech32, Bytes("a"), []) == Bytes("a12uel5l")
  {
    ShortBech32Runs();
    var hrp, sum := Bytes("a"), [10, 28, 25, 31, 20, 31];
    assert Expand(hrp) + ([] + sum) == [3, 0, 1, 10, 28, 25, 31, 20, 31];
    assert Letters([] + sum) == Bytes("2uel5l");
    assert Bytes("a12uel5l") == Text(hrp, [] + sum);
    TextIs(Bytes("a12uel5l"), Bech32, hrp, [], sum, Final(Bech32));
  }

  lemma ShortBech32mRuns()
    ensures Reaches([3, 0, 1, 31, 0, 9, 19, 17, 29], Final(Bech32m))
  {
    var vs: seq<nat>, r0 := [], Register(0, 0, 0, 0, 0, 1);
    Begin(r0);
    var r3 := Register(0, 0, 1, 3, 0, 1);
    vs := Three(vs, r0, 3, Register(0, 0, 0, 0, 1, 3), 0, Register(0, 0, 0, 1, 3, 0), 1, r3);
    var r6 := Register(30, 22, 21, 10, 29, 27);
    vs := Three(vs, r3, 31, Register(0, 1, 3, 0, 1, 31), 0, Register(1, 3, 0, 1, 31, 0), 9, r6);
    var r9 := Register(21, 28, 16, 12, 5, 3);
    vs := Three(vs, r6, 19, Register(1, 15, 5, 12, 12, 10), 17, Register(18, 19, 24, 25, 23, 3), 29, r9);
    assert vs == [3, 0, 1, 31, 0, 9, 19, 17, 29];
  }

  /** A test vector of BIP 350, section "Test vectors for Bech32m". */
  lemma ShortBech32m()
    ensures Decoded(Bytes("a1lqfn3a"), 90) == Some(Result(Bech32m, Bytes("a"), []))
    ensures Encoded(Bech32m, Bytes("a"), []) == Bytes("a1lqfn3a")
  {
    ShortBech32mRuns();
    var hrp, sum := Bytes("a"), [31, 0, 9, 19, 17, 29];
    assert Expand(hrp) + ([] + sum) == [3, 0, 1, 31, 0, 9, 19, 17, 29];
    assert Letters([] + sum) == Bytes("lqfn3a");
    assert Bytes("a1lqfn3a") == Text(hrp, [] + sum);
    TextIs(Bytes("a1lqfn3a"), Bech32m, hrp, [], sum, Final(Bech32m));
  }

  lemma Letters1(us: seq<nat>, r0: Register, r15: Register) returns (vs: seq<nat>)
    requires Reaches(us, r0) && r0 == Register(0, 0, 0, 0, 0, 1) && r15 == Register(24, 0, 3, 3, 7, 4)
    ensures vs == us + [3, 3, 3, 3, 3, 3, 0, 1, 2, 3, 4, 5, 6, 0, 1] && Reaches(vs, r15)
  {
    vs := us;
    var r3 := Register(0, 0, 1, 3, 3, 3);
    vs := Three(vs, r0, 3, Register(0, 0, 0, 0, 1, 3), 3, Register(0, 0, 0, 1, 3, 3), 3, r3);
    var r6 := Register(30, 21, 23, 22, 30, 17);
    vs := Three(vs, r3, 3, Register(0, 1, 3, 3, 3, 3), 3, Register(1, 3, 3, 3, 3, 3), 3, r6);
    var r9 := Register(11, 20, 10, 27, 27, 27);
    vs := Three(vs, r6, 0, Register(2, 13, 25, 15, 6, 25), 1, Register(30, 28, 14, 5, 10, 12), 2, r9);
    var r12 := Register(19, 6, 12, 13, 13, 8);
    vs := Three(vs, r9, 3, Register(4, 13, 10, 1, 11, 1), 4, Register(2, 0, 3, 13, 14, 30), 5, r12);
    vs := Three(vs, r12, 6, Register(29, 30, 16, 3, 19, 10), 0, Register(7, 25, 25, 20, 19, 6), 1, r15);
  }

  lemma Letters2(us: seq<nat>, r15: Register, r30: Register) returns (vs: seq<nat>)
    requires Reaches(us, r15) && r15 == Register(24, 0, 3, 3, 7, 4) && r30 == Register(25, 17, 3, 8, 1, 30)
    ensures vs == us + [2, 3, 4, 5, 6, 7, 8, 9, 10, 11, 12, 13, 14, 15, 16] && Reaches(vs, r30)
  {
    vs := us;
    var r18 := Register(20, 13, 22, 25, 29, 19);
    vs := Three(vs, r15, 2, Register(11, 22, 15, 19, 15, 12), 3, Register(6, 8, 2, 21, 28, 1), 4, r18);
    var r21 := Register(8, 30, 17, 1, 19, 8);
    vs := Three(vs, r18, 5, Register(23, 29, 19, 3, 9, 12), 6, Register(9, 11, 28, 1, 24, 16), 7, r21);
    var r24 := Register(23, 3, 0, 6, 27, 2);
    vs := Three(vs, r21, 8, Register(0, 5, 5, 31, 22, 21), 9, Register(5, 5, 31, 22, 21, 9), 10, r24);
    var r27 := Register(16, 18, 24, 3, 11, 10);
    vs := Three(vs, r24, 11, Register(23, 24, 25, 19, 22, 29), 12, Register(12, 1, 12, 30, 9, 26), 13, r27);
    vs := Three(vs, r27, 14, Register(7, 25, 11, 19, 31, 29), 15, Register(24, 18, 4, 15, 28, 10), 16, r30);
  }

  lemma Letters3(us: seq<nat>, r30: Register, r45: Register) returns (vs: seq<nat>)
    requires Reaches(us, r30) && r30 == Register(25, 17, 3, 8, 1, 30) && r45 == Register(13, 0, 26, 13, 18, 22)
    ensures vs == us + [17, 18, 19, 20, 21, 22, 23, 24, 25, 26, 27, 28, 29, 30, 31] && Reaches(vs, r45)
  {
    vs := us;
    var r33 := Register(20, 1, 12, 25, 10, 1);
    vs := Three(vs, r30, 17, Register(7, 0, 16, 0, 8, 13), 18, Register(1, 9, 23, 24, 12, 23), 19, r33);
    var r36 := Register(6, 8, 24, 27, 23, 27);
    vs := Three(vs, r33, 20, Register(27, 7, 19, 20, 27, 29), 21, Register(2, 21, 13, 25, 24, 4), 22, r36);
    var r39 := Register(31, 16, 11, 5, 29, 12);
    vs := Three(vs, r36, 23, Register(20, 23, 24, 18, 7, 0), 24, Register(13, 19, 24, 25, 26, 17), 25, r39);
    var r42 := Register(4, 24, 10, 13, 18, 23);
    vs := Three(vs, r39, 26, Register(26, 7, 30, 25, 6, 17), 27, Register(31, 14, 20, 17, 9, 24), 28, r42);
    vs := Three(vs, r42, 29, Register(23, 0, 15, 20, 24, 7), 30, Register(20, 23, 11, 16, 19, 8), 31, r45);
  }

  lemma Letters4(us: seq<nat>, r45: Register, r51: Register) returns (vs: seq<nat>)
    requires Reaches(us, r45) && r45 == Register(13, 0, 26, 13, 18, 22) && r51 == Register(0, 0, 0, 0, 0, 1)
    ensures vs == us + [27, 0, 0, 0, 6, 14] && Reaches(vs, r51)
  {
    vs := us;
    var r48 := Register(15, 24, 5, 9, 9, 31);
    vs := Three(vs, r45, 27, Register(12, 18, 31, 13, 26, 14), 0, Register(3, 1, 11, 16, 31, 7), 0, r48);
    vs := Three(vs, r48, 0, Register(7, 8, 26, 21, 0, 24), 6, Register(9, 3, 2, 16, 25, 3), 14, r51);
  }

  function UpTo(n: nat): seq<nat> { seq(n, i => i) }

  lemma LongSymbols(vs: seq<nat>, hrp: seq<nat>, sum: seq<nat>)
    requires vs == [3, 3, 3, 3, 3, 3, 0, 1, 2, 3, 4, 5, 6, 0, 1] +
                   [2, 3, 4, 5, 6, 7, 8, 9, 10, 11, 12, 13, 14, 15, 16] +
                   [17, 18, 19, 20, 21, 22, 23, 24, 25, 26, 27, 28, 29, 30, 31] + [27, 0, 0, 0, 6, 14]
    requires hrp == [97, 98, 99, 100, 101, 102] && sum == [27, 0, 0, 0, 6, 14]
    ensures vs == Expand(hrp) + (UpTo(32) + sum)
  {
    assert UpTo(32)[..2] == [0, 1] && UpTo(32)[2..17] == [2, 3, 4, 5, 6, 7, 8, 9, 10, 11, 12, 13, 14, 15, 16];
    assert UpTo(32)[17..] == [17, 18, 19, 20, 21, 22, 23, 24, 25, 26, 27, 28, 29, 30, 31];
    assert UpTo(32) == UpTo(32)[..2] + UpTo(32)[2..17] + UpTo(32)[17..];
    assert Expand(hrp) == [3, 3, 3, 3, 3, 3, 0, 1, 2, 3, 4, 5, 6];
  }

  lemma BytesOfLetters()
    ensures Letters(UpTo(32)) == Bytes(CHARSET)
  {
    forall i | 0 <= i < 32 ensures Letters(UpTo(32))[i] == Bytes(CHARSET)[i] { LetterIs(i); }
  }

  lemma BytesAdd(s: string, t: string)
    ensures Bytes(s + t) == Bytes(s) + Bytes(t)
  {
  }

  lemma LongText(hrp: seq<nat>, sum: seq<nat>)
    requires hrp == Bytes("abcdef") && sum == [27, 0, 0, 0, 6, 14]
    ensures Bytes("abcdef1" + CHARSET + "mqqqxw") == Text(hrp, UpTo(32) + sum)
  {
    TextSplit(hrp, UpTo(32), sum);
    BytesOfLetters();
    assert Letters(sum) == Bytes("mqqqxw");
    assert Bytes("abcdef1") == hrp + [SEPARATOR];
    BytesAdd("abcdef1" + CHARSET, "mqqqxw");
    BytesAdd("abcdef1", CHARSET);
  }

  /** A test vector of BIP 173 with the whole alphabet. */
  lemma LongBech32()
    ensures var text := Bytes("abcdef1" + CHARSET + "mqqqxw");
            && Decoded(text, 90) == Some(Result(Bech32, Bytes("abcdef"), UpTo(32)))
            && Encoded(Bech32, Bytes("abcdef"), UpTo(32)) == text
  {
    var r0, r15, r30 := Register(0, 0, 0, 0, 0, 1), Register(24, 0, 3, 3, 7, 4), Register(25, 17, 3, 8, 1, 30);
    var r45 := Register(13, 0, 26, 13, 18, 22);
    Begin(r0);
    var vs := Letters1([], r0, r15);
    vs := Letters2(vs, r15, r30);
    vs := Letters3(vs, r30, r45);
    vs := Letters4(vs, r45, r0);
    var hrp, sum := Bytes("abcdef"), [27, 0, 0, 0, 6, 14];
    LongSymbols(vs, hrp, sum);
    LongText(hrp, sum);
    TextIs(Bytes("abcdef1" + CHARSET + "mqqqxw"), Bech32, hrp, UpTo(32), sum, r0);
  }
}
