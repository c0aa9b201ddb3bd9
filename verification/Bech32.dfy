module Bech32 {

  /**
   Bech32 and Bech32m (BIP 173, section "Bech32"; BIP 350, section "Bech32m"): the checksum as an XOR-linear recurrence,
   encoding and decoding, and detection of errors within six adjacent symbols.
   */

  import opened Common
  import opened Closed
  import opened Words
  import Powers = Bits

  // ----- the recurrence behind PolyMod

  /** {2^n} times the generator polynomial without its leading term, for n = 0 to 4. */
  function Generator(n: nat): nat {
    match n
    case 0 => 0x3b6a57b2
    case 1 => 0x26508e6d
    case 2 => 0x1ea119fa
    case 3 => 0x3d4233dd
    case _ => 0x2a1462b3
  }

  function Part(on: bool, k: Word): Word { if on then k else Zero() }

  /** The multiple of the generator selected by bits n to 4 of what leaves the register. */
  function FeedbackFrom(c0: Word, n: nat): Word
    decreases 5 - n
  {
    if n >= 5 then Zero() else Xor(Part(c0.b[n], FromInt(Generator(n))), FeedbackFrom(c0, n + 1))
  }

  function Shifted(c: Word): Word { ShiftLeft(Keep(c, 25), 5) }

  function Step(c: Word, v: Word): Word { Xor(Xor(Shifted(c), v), FeedbackFrom(ShiftRight(c, 25), 0)) }

  ghost function Fold<T>(f: (T, T) -> T, c: T, vs: seq<T>): T
    decreases |vs|
  {
    if vs == [] then c else f(Fold(f, c, vs[..|vs| - 1]), vs[|vs| - 1])
  }

  ghost function Run(c: Word, vs: seq<Word>): Word { Fold(Step, c, vs) }

  lemma {:induction false} FoldSplit<T>(f: (T, T) -> T, c: T, us: seq<T>, vs: seq<T>)
    ensures Fold(f, c, us + vs) == Fold(f, Fold(f, c, us), vs)
    decreases |vs|
  {
    if vs == [] {
      assert us + vs == us;
    } else {
      var l := |vs| - 1;
      FoldSplit(f, c, us, vs[..l]);
      assert (us + vs)[..|us + vs| - 1] == us + vs[..l];
    }
  }

  /** A fold of a step that respects `x` respects it too. */
  lemma {:induction false} FoldLinear<T(!new)
    >(f: (T, T) -> T, x: (T, T) -> T, a: T, b: T, us: seq<T>, vs: seq<T>, ws: seq<T>)
    requires |us| == |vs| == |ws| && forall i :: 0 <= i < |us| ==> ws[i] == x(us[i], vs[i])
    requires forall p, q, u, v :: f(x(p, q), x(u, v)) == x(f(p, u), f(q, v))
    ensures Fold(f, x(a, b), ws) == x(Fold(f, a, us), Fold(f, b, vs))
    decreases |us|
  {
    if us != [] {
      var l := |us| - 1;
      FoldLinear(f, x, a, b, us[..l], vs[..l], ws[..l]);
    }
  }

  lemma RunAppend(c: Word, us: seq<Word>, v: Word)
    ensures Run(c, us + [v]) == Step(Run(c, us), v)
  {
    assert (us + [v])[..|us|] == us;
  }

  method PolyMod(v: seq<nat>) returns (c: Word)
    ensures c == Run(FromInt(1), Symbols(v))
  {
    c := FromInt(1);
    for i := 0 to |v|
      invariant c == Run(FromInt(1), Symbols(v)[..i])
    {
      assert Symbols(v)[..i + 1] == Symbols(v)[..i] + [FromInt(v[i])];
      RunAppend(FromInt(1), Symbols(v)[..i], FromInt(v[i]));
      c := Absorb(c, v[i]);
    }
    assert Symbols(v)[..|v|] == Symbols(v);
  }

  ghost function Symbols(v: seq<nat>): (r: seq<Word>)
    ensures |r| == |v| && forall i :: 0 <= i < |v| ==> r[i] == FromInt(v[i])
  {
    seq(|v|, i requires 0 <= i < |v| => FromInt(v[i]))
  }

  /** The body of PolyMod's loop. */
  method Absorb(before: Word, v: nat) returns (c: Word)
    ensures c == Step(before, FromInt(v))
  {
    var c0 := ShiftRight(before, 25);
    c := Xor(ShiftLeft(Keep(before, 25), 5), FromInt(v));
    ghost var start := c;
    XorZero(c);
    for n := 0 to 5
      invariant Xor(c, FeedbackFrom(c0, n)) == Xor(start, FeedbackFrom(c0, 0))
    {
      XorAssociates(c, FromInt(Generator(n)), FeedbackFrom(c0, n + 1));
      XorZero(FeedbackFrom(c0, n + 1));
      if c0.b[n] { c := Xor(c, FromInt(Generator(n))); }
    }
    XorZero(c);
  }

  // ----- the step is linear over XOR and loses nothing

  lemma PartXor(x: bool, y: bool, k: Word)
    ensures Part(x != y, k) == Xor(Part(x, k), Part(y, k))
  {
    XorZero(k);
    XorZero(Zero());
  }

  lemma {:induction false} FeedbackXor(a: Word, b: Word, n: nat)
    ensures FeedbackFrom(Xor(a, b), n) == Xor(FeedbackFrom(a, n), FeedbackFrom(b, n))
    decreases 5 - n
  {
    if n < 5 {
      FeedbackXor(a, b, n + 1);
      var k := FromInt(Generator(n));
      PartXor(a.b[n], b.b[n], k);
      XorPairs(Part(a.b[n], k), Part(b.b[n], k), FeedbackFrom(a, n + 1), FeedbackFrom(b, n + 1));
    } else {
      XorZero(Zero());
    }
  }

  lemma StepXor(a: Word, u: Word, b: Word, v: Word)
    ensures Step(Xor(a, b), Xor(u, v)) == Xor(Step(a, u), Step(b, v))
  {
    ShiftsXor(a, b, 25);
    ShiftsXor(Keep(a, 25), Keep(b, 25), 5);
    FeedbackXor(ShiftRight(a, 25), ShiftRight(b, 25), 0);
    XorPairs(Shifted(a), Shifted(b), u, v);
    XorPairs(Xor(Shifted(a), u), Xor(Shifted(b), v), FeedbackFrom(ShiftRight(a, 25), 0),
             FeedbackFrom(ShiftRight(b, 25), 0));
  }

  /** `ws` is the symbol-wise XOR of `us` and `vs`. */
  ghost predicate Differences(us: seq<Word>, vs: seq<Word>, ws: seq<Word>) {
    |us| == |vs| == |ws| && forall i :: 0 <= i < |us| ==> ws[i] == Xor(us[i], vs[i])
  }

  /** PolyMod is affine over XOR. */
  lemma RunXor(a: Word, b: Word, us: seq<Word>, vs: seq<Word>, ws: seq<Word>)
    requires Differences(us, vs, ws)
    ensures Run(Xor(a, b), ws) == Xor(Run(a, us), Run(b, vs))
  {
    forall p, q, u, v ensures Step(Xor(p, q), Xor(u, v)) == Xor(Step(p, u), Step(q, v)) { StepXor(p, u, q, v); }
    FoldLinear(Step, Xor, a, b, us, vs, ws);
  }

  // ----- the constants

  lemma GeneratorSmall(n: nat)
    ensures Within(FromInt(Generator(n)), 30)
  {
    assert Powers.Pow2(10) == 1024;
    Powers.Pow2Add(10, 10);
    Powers.Pow2Add(20, 10);
    FromIntWithin(Generator(n), 30);
  }

  lemma {:induction false} FeedbackWithin(c0: Word, n: nat)
    ensures Within(FeedbackFrom(c0, n), 30)
    decreases 5 - n
  {
    if n < 5 {
      FeedbackWithin(c0, n + 1);
      GeneratorSmall(n);
    }
  }

  lemma StepWithin(c: Word, v: Word)
    requires Within(v, 30)
    ensures Within(Step(c, v), 30)
  {
    FeedbackWithin(ShiftRight(c, 25), 0);
  }

  // ----- the step loses nothing

  /** Bit `j` of the feedback. */
  lemma FeedbackBit(c0: Word, j: nat)
    requires j < 32
    ensures FeedbackFrom(c0, 0).b[j] ==
            ((c0.b[0] && Bit(Generator(0), j)) !=
             ((c0.b[1] && Bit(Generator(1), j)) != ((c0.b[2] && Bit(Generator(2), j)) !=
             ((c0.b[3] && Bit(Generator(3), j)) != (c0.b[4] && Bit(Generator(4), j))))))
  {
    FeedbackBitFrom(c0, 4, j);
    FeedbackBitFrom(c0, 3, j);
    FeedbackBitFrom(c0, 2, j);
    FeedbackBitFrom(c0, 1, j);
    FeedbackBitFrom(c0, 0, j);
  }

  lemma FeedbackBitFrom(c0: Word, n: nat, j: nat)
    requires n < 5 && j < 32
    ensures FeedbackFrom(c0, n).b[j] == ((c0.b[n] && Bit(Generator(n), j)) != FeedbackFrom(c0, n + 1).b[j])
    ensures !FeedbackFrom(c0, 5).b[j]
  {
  }

  /** The constant coefficients of the five multiples: 18, 13, 26, 29 and 19. */
  lemma ConstantTerms()
    ensures !Bit(Generator(0), 0) && Bit(Generator(0), 1) && !Bit(Generator(0), 2) && !Bit(Generator(0), 3)
    ensures Bit(Generator(0), 4)
    ensures Bit(Generator(1), 0) && !Bit(Generator(1), 1) && Bit(Generator(1), 2) && Bit(Generator(1), 3)
    ensures !Bit(Generator(1), 4)
    ensures !Bit(Generator(2), 0) && Bit(Generator(2), 1) && !Bit(Generator(2), 2) && Bit(Generator(2), 3)
    ensures Bit(Generator(2), 4)
    ensures Bit(Generator(3), 0) && !Bit(Generator(3), 1) && Bit(Generator(3), 2) && Bit(Generator(3), 3)
    ensures Bit(Generator(3), 4)
    ensures Bit(Generator(4), 0) && Bit(Generator(4), 1) && !Bit(Generator(4), 2) && !Bit(Generator(4), 3)
    ensures Bit(Generator(4), 4)
  {
  }

  /** If the feedback has no constant term, nothing left the register. */
  lemma NoFeedback(c0: Word)
    requires forall j :: 0 <= j < 5 ==> !FeedbackFrom(c0, 0).b[j]
    ensures !c0.b[0] && !c0.b[1] && !c0.b[2] && !c0.b[3] && !c0.b[4]
  {
    ConstantTerms();
    FeedbackBit(c0, 0);
    FeedbackBit(c0, 1);
    FeedbackBit(c0, 2);
    FeedbackBit(c0, 3);
    FeedbackBit(c0, 4);
  }

  lemma {:induction false} QuietFeedback(c0: Word, n: nat)
    requires forall j :: 0 <= j < 5 ==> !c0.b[j]
    ensures FeedbackFrom(c0, n) == Zero()
    decreases 5 - n
  {
    if n < 5 {
      QuietFeedback(c0, n + 1);
      XorZero(Zero());
    }
  }

  /** Only zero steps to zero. */
  lemma StepInjective(c: Word)
    requires Within(c, 30) && Step(c, Zero()) == Zero()
    ensures c == Zero()
  {
    var c0 := ShiftRight(c, 25);
    var f := FeedbackFrom(c0, 0);
    forall j | 0 <= j < 5 ensures !f.b[j] { assert !Step(c, Zero()).b[j]; }
    NoFeedback(c0);
    QuietFeedback(c0, 0);
    forall i | 0 <= i < 32 ensures !c.b[i] {
      if i < 25 { assert !Step(c, Zero()).b[i + 5]; } else if i < 30 { assert !c0.b[i - 25]; }
    }
    SameBits(c, Zero());
  }

  /** While five symbols or fewer are in the register, a step only shifts. */
  lemma StepShifts(c: Word, v: Word)
    requires Within(c, 25)
    ensures Step(c, v) == Xor(ShiftLeft(c, 5), v)
  {
    QuietFeedback(ShiftRight(c, 25), 0);
    XorZero(Xor(Shifted(c), v));
    SameBits(Shifted(c), ShiftLeft(c, 5));
  }

  ghost function Zeros(n: nat): (r: seq<Word>)
    ensures |r| == n && forall i :: 0 <= i < n ==> r[i] == Zero()
  {
    seq(n, _ => Zero())
  }

  lemma StepZero()
    ensures Step(Zero(), Zero()) == Zero()
  {
    QuietFeedback(ShiftRight(Zero(), 25), 0);
    SameBits(Step(Zero(), Zero()), Zero());
  }

  lemma ZeroStep(d: Word, d': Word)
    requires Within(d, 30) && d' == Step(d, Zero())
    ensures Within(d', 30) && (d' == Zero() <==> d == Zero())
  {
    StepWithin(d, Zero());
    StepZero();
    if d' == Zero() { StepInjective(d); }
  }

  /** Zeros keep a register that is not zero from becoming zero. */
  lemma {:induction false} RunZeros(c: Word, n: nat, c': Word)
    requires Within(c, 30) && c' == Run(c, Zeros(n))
    ensures Within(c', 30) && (c' == Zero() <==> c == Zero())
  {
    if n > 0 {
      assert Zeros(n) == Zeros(n - 1) + [Zero()];
      RunAppend(c, Zeros(n - 1), Zero());
      var d := Run(c, Zeros(n - 1));
      RunZeros(c, n - 1, d);
      ZeroStep(d, c');
    }
  }

  // ----- six symbols fill the register

  /** Symbols side by side, the last one lowest. */
  ghost function Pack(ds: seq<Word>): (c: Word)
    ensures forall i :: 0 <= i < 32 ==> c.b[i] == (i < 5 * |ds| && ds[|ds| - 1 - i / 5].b[i % 5])
  {
    Bits(seq(32, i requires 0 <= i < 32 => i < 5 * |ds| && ds[|ds| - 1 - i / 5].b[i % 5]))
  }

  lemma PackNext(es: seq<Word>, v: Word)
    requires |es| <= 5 && Within(v, 5)
    ensures Pack(es + [v]) == Step(Pack(es), v)
  {
    var p := Pack(es);
    StepShifts(p, v);
    var c := Xor(ShiftLeft(p, 5), v);
    forall i | 0 <= i < 32 ensures Pack(es + [v]).b[i] == c.b[i] { PackNextBit(es, v, p, c, i); }
    SameBits(Pack(es + [v]), c);
  }

  lemma PackNextBit(es: seq<Word>, v: Word, p: Word, c: Word, i: nat)
    requires |es| <= 5 && Within(v, 5) && p == Pack(es) && c == Xor(ShiftLeft(p, 5), v) && i < 32
    ensures Pack(es + [v]).b[i] == c.b[i]
  {
    var ds := es + [v];
    if i < 5 {
      assert i / 5 == 0 && i % 5 == i;
      assert ds[|ds| - 1] == v;
    } else {
      assert c.b[i] == p.b[i - 5];
      assert (i - 5) / 5 == i / 5 - 1 && (i - 5) % 5 == i % 5;
      if i < 5 * |ds| { assert ds[|ds| - 1 - i / 5] == es[|es| - 1 - (i / 5 - 1)]; }
    }
  }

  /** A fold that follows `g` one element at a time computes `g`. */
  lemma {:induction false} FoldIs<T(!new)>(f: (T, T) -> T, c: T, ds: seq<T>, g: seq<T> -> T, ok: T -> bool, n: nat)
    requires |ds| <= n && (forall i :: 0 <= i < |ds| ==> ok(ds[i])) && g([]) == c
    requires forall es, v :: |es| < n && ok(v) ==> g(es + [v]) == f(g(es), v)
    ensures Fold(f, c, ds) == g(ds)
    decreases |ds|
  {
    if ds != [] {
      var l := |ds| - 1;
      FoldIs(f, c, ds[..l], g, ok, n);
      assert ds == ds[..l] + [ds[l]];
    }
  }

  lemma RunPacks(ds: seq<Word>)
    requires |ds| <= 6 && forall i :: 0 <= i < |ds| ==> Within(ds[i], 5)
    ensures Run(Zero(), ds) == Pack(ds)
  {
    forall es: seq<Word>, v: Word | |es| < 6 && Within(v, 5) ensures Pack(es + [v]) == Step(Pack(es), v) {
      PackNext(es, v);
    }
    SameBits(Pack([]), Zero());
    FoldIs(Step, Zero(), ds, Pack, v => Within(v, 5), 6);
  }

  lemma PackedBit(ds: seq<Word>, k: nat, j: nat)
    requires k < |ds| <= 6 && j < 5
    ensures Pack(ds).b[5 * (|ds| - 1 - k) + j] == ds[k].b[j]
  {
    var i := 5 * (|ds| - 1 - k) + j;
    assert i / 5 == |ds| - 1 - k && i % 5 == j;
  }

  /** A register that six symbols left at zero was fed zeros. */
  lemma PackedZero(ds: seq<Word>, k: nat)
    requires k < |ds| <= 6 && Within(ds[k], 5) && Pack(ds) == Zero()
    ensures ds[k] == Zero()
  {
    forall j | 0 <= j < 32 ensures !ds[k].b[j] { if j < 5 { PackedBit(ds, k, j); } }
    SameBits(ds[k], Zero());
  }

  lemma RunWithin(ds: seq<Word>)
    requires |ds| <= 6 && forall i :: 0 <= i < |ds| ==> Within(ds[i], 5)
    ensures Within(Run(Zero(), ds), 30)
  {
    RunPacks(ds);
  }

  ghost predicate AllZero(es: seq<Word>) { forall k :: 0 <= k < |es| ==> es[k] == Zero() }

  /** Symbols of five bits. */
  ghost predicate Narrow(es: seq<Word>) { forall i :: 0 <= i < |es| ==> Within(es[i], 5) }

  /** The symbols `es` between zeros bring a zero register back to zero; kept closed. */
  ghost predicate LeavesZero(p: nat, es: seq<Word>, q: nat) {
    forall key: int :: Key(1, key) ==> Run(Zero(), Zeros(p) + es + Zeros(q)) == Zero()
  }

  /** A burst of at most six symbols never cancels, however many symbols come before and after. */
  lemma BurstShows(p: nat, es: seq<Word>, q: nat)
    requires |es| <= 6 && Narrow(es) && LeavesZero(p, es, q)
    ensures AllZero(es)
  {
    assert Key(1, 0);
    FoldSplit(Step, Zero(), Zeros(p) + es, Zeros(q));
    FoldSplit(Step, Zero(), Zeros(p), es);
    RunZeros(Zero(), p, Run(Zero(), Zeros(p)));
    var c := Run(Zero(), es);
    RunWithin(es);
    RunZeros(c, q, Run(c, Zeros(q)));
    RunPacks(es);
    forall k | 0 <= k < |es| ensures es[k] == Zero() { PackedZero(es, k); }
  }

  // ----- the checksum

  datatype Encoding = Bech32 | Bech32m

  function EncodingConstant(e: Encoding): nat { if e.Bech32? then 1 else 0x2bc830a3 }

  function HighBits(ch: nat): nat { if ch >= 128 then 248 + ch / 32 else ch / 32 }

  /** The human-readable part, spread over symbols: the high bits, a zero, the low bits. */
  function Expand(hrp: seq<nat>): (r: seq<nat>)
    ensures |r| == 2 * |hrp| + 1
  {
    seq(|hrp|, i requires 0 <= i < |hrp| => HighBits(hrp[i])) + [0] +
    seq(|hrp|, i requires 0 <= i < |hrp| => hrp[i] % 32)
  }

  /** BIP 173, section "Bech32": the high bits of each character, a zero, and the low bits of each character. */
  lemma ExpandIs(hrp: seq<nat>, i: nat)
    requires i < |hrp| && hrp[i] < 128
    ensures Expand(hrp)[i] == hrp[i] / 32 && Expand(hrp)[|hrp|] == 0 && Expand(hrp)[|hrp| + 1 + i] == hrp[i] % 32
    ensures Symbols(Expand(hrp))[i] == FromInt(hrp[i] / 32) && Symbols(Expand(hrp))[|hrp|] == FromInt(0)
    ensures Symbols(Expand(hrp))[|hrp| + 1 + i] == FromInt(hrp[i] % 32)
  {
  }

  lemma BitsRecall(ch: nat)
    requires ch < 256
    ensures ch == 32 * (HighBits(ch) % 8) + ch % 32
  {
    assert ch == 32 * (ch / 32) + ch % 32;
  }

  /** The symbols determine the human-readable part: nothing of it is left out of the checksum. */
  lemma ExpandInjective(a: seq<nat>, b: seq<nat>)
    requires Within8(a) && Within8(b) && Expand(a) == Expand(b)
    ensures a == b
  {
    assert |Expand(a)| == 2 * |a| + 1 && |Expand(b)| == 2 * |b| + 1;
    forall i | 0 <= i < |a| ensures a[i] == b[i] {
      assert Expand(a)[i] == HighBits(a[i]) && Expand(b)[i] == HighBits(b[i]);
      assert Expand(a)[|a| + 1 + i] == a[i] % 32 && Expand(b)[|b| + 1 + i] == b[i] % 32;
      BitsRecall(a[i]);
      BitsRecall(b[i]);
    }
  }

  ghost function Check(hrp: seq<nat>, values: seq<nat>): Word { Run(FromInt(1), Symbols(Expand(hrp) + values)) }

  /** Group `i` of the checksum: (mod >> 5 * (5 - i)) & 31. */
  function Group(mod: Word, i: nat): (d: nat)
    requires i < 6
    ensures d < 32 && FromInt(d) == Keep(ShiftRight(mod, 5 * (5 - i)), 5)
  {
    var w := Keep(ShiftRight(mod, 5 * (5 - i)), 5);
    GroupBits(w);
    ToInt(w.b[..5])
  }

  lemma GroupBits(w: Word)
    requires Within(w, 5)
    ensures ToInt(w.b[..5]) < 32 && FromInt(ToInt(w.b[..5])) == w
  {
    var d := ToInt(w.b[..5]);
    IntOfBits(w.b[..5], 0);
    assert Powers.Pow2(5) == 32;
    FromIntWithin(d, 5);
    forall i | 0 <= i < 32 ensures FromInt(d).b[i] == w.b[i] { if i < 5 { IntOfBits(w.b[..5], i); } }
    SameBits(FromInt(d), w);
  }

  /** The six groups put the register back together. */
  lemma GroupsPack(mod: Word, ds: seq<Word>)
    requires Within(mod, 30) && |ds| == 6 && forall i :: 0 <= i < 6 ==> ds[i] == Keep(ShiftRight(mod, 5 * (5 - i)), 5)
    ensures Run(Zero(), ds) == mod
  {
    RunPacks(ds);
    forall b | 0 <= b < 32 ensures Run(Zero(), ds).b[b] == mod.b[b] {
      if b < 30 {
        var k, j := 5 - b / 5, b % 5;
        assert Pack(ds).b[b] == ds[k].b[j];
        assert ds[k].b[j] == mod.b[j + 5 * (5 - k)];
      }
    }
    SameBits(Run(Zero(), ds), mod);
  }

  lemma ExpandedWithin(hrp: seq<nat>)
    requires forall i :: 0 <= i < |hrp| ==> hrp[i] < 256
    ensures forall i :: 0 <= i < |Expand(hrp)| ==> Expand(hrp)[i] < 256
  {
  }

  /** What has to be XORed into six zero symbols to reach the encoding's constant. */
  ghost function Residue(e: Encoding, hrp: seq<nat>, values: seq<nat>): Word {
    Xor(Check(hrp, values + [0, 0, 0, 0, 0, 0]), FromInt(EncodingConstant(e)))
  }

  ghost function Checksum(e: Encoding, hrp: seq<nat>, values: seq<nat>): (r: seq<nat>)
    ensures |r| == 6 && forall i :: 0 <= i < 6 ==> r[i] < 32 && r[i] == Group(Residue(e, hrp, values), i)
  {
    var mod := Residue(e, hrp, values);
    seq(6, i requires 0 <= i < 6 => Group(mod, i))
  }

  method CreateChecksum(e: Encoding, hrp: seq<nat>, values: seq<nat>) returns (r: seq<nat>)
    ensures r == Checksum(e, hrp, values)
  {
    var enc := Expand(hrp) + values;
    enc := enc + [0, 0, 0, 0, 0, 0];
    assert enc == Expand(hrp) + (values + [0, 0, 0, 0, 0, 0]);
    var mod := PolyMod(enc);
    mod := Xor(mod, FromInt(EncodingConstant(e)));
    r := [];
    for i := 0 to 6
      invariant r == Checksum(e, hrp, values)[..i]
    {
      r := r + [Group(mod, i)];
    }
  }

  /** VerifyChecksum: which encoding the values are valid for, if any. */
  method VerifyChecksum(hrp: seq<nat>, values: seq<nat>) returns (r: Option<Encoding>)
    ensures r == Verified(hrp, values)
  {
    var enc := Expand(hrp) + values;
    var check := PolyMod(enc);
    if check == FromInt(EncodingConstant(Bech32)) { return Some(Bech32); }
    if check == FromInt(EncodingConstant(Bech32m)) { return Some(Bech32m); }
    return None;
  }

  ghost function Verified(hrp: seq<nat>, values: seq<nat>): Option<Encoding> {
    if Check(hrp, values) == FromInt(EncodingConstant(Bech32)) then Some(Bech32)
    else if Check(hrp, values) == FromInt(EncodingConstant(Bech32m)) then Some(Bech32m)
    else None
  }

  lemma ConstantsDiffer()
    ensures FromInt(EncodingConstant(Bech32)) != FromInt(EncodingConstant(Bech32m))
    ensures Within(FromInt(EncodingConstant(Bech32)), 30) && Within(FromInt(EncodingConstant(Bech32m)), 30)
  {
    assert !Bit(1, 1) && Bit(0x2bc830a3, 1);
    assert !FromInt(1).b[1] && FromInt(0x2bc830a3).b[1];
    assert Powers.Pow2(10) == 1024;
    Powers.Pow2Add(10, 10);
    Powers.Pow2Add(20, 10);
    FromIntWithin(1, 30);
    FromIntWithin(0x2bc830a3, 30);
  }

  lemma VerifiedIs(e: Encoding, hrp: seq<nat>, values: seq<nat>)
    ensures Verified(hrp, values) == Some(e) <==> Check(hrp, values) == FromInt(EncodingConstant(e))
  {
    ConstantsDiffer();
  }

  // ----- a created checksum verifies

  ghost predicate Within8(vs: seq<nat>) { forall i :: 0 <= i < |vs| ==> vs[i] < 256 }

  lemma {:induction false} RunIsSmall(c: Word, vs: seq<Word>, c': Word)
    requires Within(c, 30) && (forall i :: 0 <= i < |vs| ==> Within(vs[i], 30)) && c' == Run(c, vs)
    ensures Within(c', 30)
    decreases |vs|
  {
    if vs != [] {
      var l := |vs| - 1;
      RunIsSmall(c, vs[..l], Run(c, vs[..l]));
      StepWithin(Run(c, vs[..l]), vs[l]);
    }
  }

  lemma CheckIsSmall(hrp: seq<nat>, values: seq<nat>)
    requires Within8(hrp) && Within8(values)
    ensures Within(Check(hrp, values), 30)
  {
    ExpandedWithin(hrp);
    var vs := Expand(hrp) + values;
    SmallPowers();
    forall i | 0 <= i < |vs| ensures Within(Symbols(vs)[i], 30) { FromIntWithin(vs[i], 30); }
    FromIntWithin(1, 30);
    RunIsSmall(FromInt(1), Symbols(vs), Check(hrp, values));
  }

  lemma SmallPowers()
    ensures Powers.Pow2(30) == 0x4000_0000
  {
    assert Powers.Pow2(10) == 1024;
    Powers.Pow2Add(10, 10);
    Powers.Pow2Add(20, 10);
  }

  /** Appending symbols in place of zeros XORs their packed value into the check. */
  lemma AppendedCheck(hrp: seq<nat>, values: seq<nat>, sum: seq<nat>)
    requires |sum| == 6
    ensures Check(hrp, values + sum) == Xor(Check(hrp, values + [0, 0, 0, 0, 0, 0]), Run(Zero(), Symbols(sum)))
  {
    var pre := Expand(hrp) + values;
    var zs := [0, 0, 0, 0, 0, 0];
    assert Expand(hrp) + (values + sum) == pre + sum && Expand(hrp) + (values + zs) == pre + zs;
    var us, vs, ws := Symbols(pre + zs), Zeros(|pre|) + Symbols(sum), Symbols(pre + sum);
    forall i | 0 <= i < |ws| ensures ws[i] == Xor(us[i], vs[i]) {
      if i < |pre| {
        XorZero(FromInt(pre[i]));
      } else {
        ZeroSymbol();
        XorZero(FromInt(sum[i - |pre|]));
      }
    }
    XorZero(FromInt(1));
    RunXor(FromInt(1), Zero(), us, vs, ws);
    FoldSplit(Step, Zero(), Zeros(|pre|), Symbols(sum));
    RunZeros(Zero(), |pre|, Run(Zero(), Zeros(|pre|)));
  }

  lemma ZeroSymbol()
    ensures FromInt(0) == Zero()
  {
    forall i | 0 <= i < 32 ensures !FromInt(0).b[i] { BitOfZero(i); }
    SameBits(FromInt(0), Zero());
  }

  /** CreateChecksum makes VerifyChecksum accept. */
  lemma ChecksumVerifies(e: Encoding, hrp: seq<nat>, values: seq<nat>)
    requires Within8(hrp) && Within8(values)
    ensures Verified(hrp, values + Checksum(e, hrp, values)) == Some(e)
  {
    var sum := Checksum(e, hrp, values);
    AppendedCheck(hrp, values, sum);
    var zs := [0, 0, 0, 0, 0, 0];
    CheckIsSmall(hrp, values + zs);
    ConstantsDiffer();
    var check, k := Check(hrp, values + zs), FromInt(EncodingConstant(e));
    GroupsPack(Residue(e, hrp, values), Symbols(sum));
    XorAssociates(check, check, k);
    XorZero(check);
    XorZero(k);
    VerifiedIs(e, hrp, values + sum);
  }

  // ----- errors within six adjacent symbols

  lemma SymbolsEqual(x: nat, y: nat)
    requires x < 32 && y < 32 && FromInt(x) == FromInt(y)
    ensures x == y
  {
    assert Powers.Pow2(5) == 32;
    BitsOfInt(x, FromInt(x).b[..5]);
    BitsOfInt(y, FromInt(y).b[..5]);
  }

  lemma DifferenceWithin(x: nat, y: nat)
    requires x < 32 && y < 32
    ensures Within(Xor(FromInt(x), FromInt(y)), 5)
  {
    assert Powers.Pow2(5) == 32;
    FromIntWithin(x, 5);
    FromIntWithin(y, 5);
  }

  /** The differences within the window. */
  ghost function Window(a: seq<nat>, b: seq<nat>, p: nat, n: nat): (es: seq<Word>)
    requires p + n <= |a| == |b|
    ensures |es| == n && forall i :: 0 <= i < n ==> es[i] == Xor(FromInt(a[p + i]), FromInt(b[p + i]))
  {
    seq<Word>(n, i requires 0 <= i < n => Xor(FromInt(a[p + i]), FromInt(b[p + i])))
  }

  /** The difference of the checks is what the window alone leaves in the register. */
  lemma BurstCheck(x: seq<nat>, a: seq<nat>, b: seq<nat>, p: nat, n: nat)
    requires |a| == |b| && p + n <= |a| && a[..p] == b[..p] && a[p + n..] == b[p + n..]
    ensures Run(Zero(), Zeros(|x| + p) + Window(a, b, p, n) + Zeros(|a| - p - n)) ==
            Xor(Run(FromInt(1), Symbols(x + a)), Run(FromInt(1), Symbols(x + b)))
  {
    var us, vs, ws := Symbols(x + a), Symbols(x + b), Zeros(|x| + p) + Window(a, b, p, n) + Zeros(|a| - p - n);
    forall i | 0 <= i < |ws| ensures ws[i] == Xor(us[i], vs[i]) { BurstSymbol(x, a, b, p, n, i); }
    XorZero(FromInt(1));
    RunXor(FromInt(1), FromInt(1), us, vs, ws);
  }

  lemma WindowCloses(a: seq<nat>, b: seq<nat>, p: nat, n: nat, i: nat)
    requires |a| == |b| && p + n <= |a| && a[..p] == b[..p] && a[p + n..] == b[p + n..] && i < |a|
    requires p <= i < p + n ==> a[i] < 32 && b[i] < 32 && Window(a, b, p, n)[i - p] == Zero()
    ensures a[i] == b[i]
  {
    if i < p {
      assert a[..p][i] == b[..p][i];
    } else if i < p + n {
      XorCancel(FromInt(a[i]), FromInt(b[i]));
      SymbolsEqual(a[i], b[i]);
    } else {
      assert a[p + n..][i - p - n] == b[p + n..][i - p - n];
    }
  }

  /** Two value lists that agree outside six adjacent symbols and pass under the same encoding are the same list. */
  lemma BurstDetected(e: Encoding, hrp: seq<nat>, a: seq<nat>, b: seq<nat>, p: nat, n: nat)
    requires |a| == |b| && p + n <= |a| && n <= 6 && a[..p] == b[..p] && a[p + n..] == b[p + n..]
    requires forall i :: p <= i < p + n ==> a[i] < 32 && b[i] < 32
    requires Verified(hrp, a) == Some(e) && Verified(hrp, b) == Some(e)
    ensures a == b
  {
    VerifiedIs(e, hrp, a);
    VerifiedIs(e, hrp, b);
    WindowIsZero(Expand(hrp), a, b, p, n);
    forall i | 0 <= i < |a| ensures a[i] == b[i] { WindowCloses(a, b, p, n, i); }
  }

  /** No other six symbols verify. */
  lemma ChecksumUnique(e: Encoding, hrp: seq<nat>, values: seq<nat>, sum: seq<nat>)
    requires Within8(hrp) && Within8(values) && |sum| == 6 && (forall i :: 0 <= i < 6 ==> sum[i] < 32)
    requires Verified(hrp, values + sum) == Some(e)
    ensures sum == Checksum(e, hrp, values)
  {
    ChecksumVerifies(e, hrp, values);
    SameEnding(e, hrp, values, sum, Checksum(e, hrp, values));
  }

  lemma SameEnding(e: Encoding, hrp: seq<nat>, values: seq<nat>, sum: seq<nat>, sum': seq<nat>)
    requires |sum| == |sum'| == 6 && (forall i :: 0 <= i < 6 ==> sum[i] < 32 && sum'[i] < 32)
    requires Verified(hrp, values + sum) == Some(e) && Verified(hrp, values + sum') == Some(e)
    ensures sum == sum'
  {
    var a, b, p := values + sum, values + sum', |values|;
    assert a[..p] == b[..p] && a[p + 6..] == b[p + 6..] && a[p..] == sum && b[p..] == sum';
    BurstDetected(e, hrp, a, b, p, 6);
  }

  ghost predicate SameCheck(x: seq<nat>, a: seq<nat>, b: seq<nat>) {
    forall key: int :: Key(2, key) ==> Run(FromInt(1), Symbols(x + a)) == Run(FromInt(1), Symbols(x + b))
  }

  lemma WindowIsZero(x: seq<nat>, a: seq<nat>, b: seq<nat>, p: nat, n: nat)
    requires |a| == |b| && p + n <= |a| && n <= 6 && a[..p] == b[..p] && a[p + n..] == b[p + n..]
    requires forall i :: p <= i < p + n ==> a[i] < 32 && b[i] < 32
    requires SameCheck(x, a, b)
    ensures AllZero(Window(a, b, p, n))
  {
    WindowNarrow(a, b, p, n);
    WindowCancels(x, a, b, p, n);
    BurstShows(|x| + p, Window(a, b, p, n), |a| - p - n);
  }

  lemma WindowNarrow(a: seq<nat>, b: seq<nat>, p: nat, n: nat)
    requires |a| == |b| && p + n <= |a| && forall i :: p <= i < p + n ==> a[i] < 32 && b[i] < 32
    ensures Narrow(Window(a, b, p, n))
  {
    var es := Window(a, b, p, n);
    forall i | 0 <= i < n ensures Within(es[i], 5) { DifferenceWithin(a[p + i], b[p + i]); }
  }

  lemma WindowCancels(x: seq<nat>, a: seq<nat>, b: seq<nat>, p: nat, n: nat)
    requires |a| == |b| && p + n <= |a| && a[..p] == b[..p] && a[p + n..] == b[p + n..]
    requires SameCheck(x, a, b)
    ensures LeavesZero(|x| + p, Window(a, b, p, n), |a| - p - n)
  {
    assert Key(2, 0);
    BurstCheck(x, a, b, p, n);
    XorZero(Run(FromInt(1), Symbols(x + a)));
  }

  lemma BurstSymbol(x: seq<nat>, a: seq<nat>, b: seq<nat>, p: nat, n: nat, i: nat)
    requires |a| == |b| && p + n <= |a| && i < |x| + |a| && a[..p] == b[..p] && a[p + n..] == b[p + n..]
    ensures var d := Xor(Symbols(x + a)[i], Symbols(x + b)[i]);
            if |x| + p <= i < |x| + p + n then d == Xor(FromInt(a[i - |x|]), FromInt(b[i - |x|])) else d == Zero()
  {
    if i < |x| {
      XorZero(FromInt(x[i]));
    } else {
      var k := i - |x|;
      if k < p { assert a[..p][k] == b[..p][k]; }
      if k >= p + n { assert a[p + n..][k - p - n] == b[p + n..][k - p - n]; }
      XorZero(FromInt(a[k]));
    }
  }
}
