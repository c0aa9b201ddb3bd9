module Bech32Roots {

  /**
   The checksum register as the remainder of a polynomial: its value at a root of the generator.

   The generator has the roots e^997, e^998 and e^999, so that evaluation at a root t turns a step of the checksum into
   x -> t * x + v.
   */

  import opened Common
  import opened Closed
  import opened Words
  import opened Bech32
  import opened Iterates
  import opened ErrorField

  // ----- evaluation of a register at a root

  /** The symbols 1, 2, 4, 8 and 16 as elements of the field. */
  function Basis(n: nat): Elem {
    match n
    case 0 => El(0x1)
    case 1 => El(0x14d)
    case 2 => El(0x283)
    case 3 => El(0x267)
    case _ => El(0x122)
  }

  /** What bit `i` of a register stands for; `t` multiplies by the root. */
  function Weight(t: Elem -> Elem, i: nat): Elem { if i < 5 then Basis(i) else t(Weight(t, i - 5)) }

  function Term(t: Elem -> Elem, w: Word, i: nat): Elem
    requires i < 32
  {
    Sel(w.b[i], Weight(t, i))
  }

  /** The value of the lowest `n` bits. */
  function Value(t: Elem -> Elem, w: Word, n: nat): Elem
    requires n <= 32
  {
    if n == 0 then Nil() else Add(Value(t, w, n - 1), Term(t, w, n - 1))
  }

  lemma TermXor(t: Elem -> Elem, x: Word, y: Word, i: nat)
    requires i < 32
    ensures Term(t, Xor(x, y), i) == Add(Term(t, x, i), Term(t, y, i))
  {
    SelAdd(x.b[i], y.b[i], Weight(t, i));
  }

  lemma AddTerms(p: Elem, q: Elem, r: Elem, s: Elem, pq: Elem, rs: Elem)
    requires pq == Add(p, q) && rs == Add(r, s)
    ensures Add(pq, rs) == Add(Add(p, r), Add(q, s))
  {
    AddPairs(p, q, r, s);
  }

  lemma {:induction false} ValueXor(t: Elem -> Elem, x: Word, y: Word, n: nat)
    requires n <= 32
    ensures Value(t, Xor(x, y), n) == Add(Value(t, x, n), Value(t, y, n))
  {
    if n == 0 {
      AddNil(Nil());
    } else {
      ValueXor(t, x, y, n - 1);
      TermXor(t, x, y, n - 1);
      AddTerms(Value(t, x, n - 1), Value(t, y, n - 1), Term(t, x, n - 1), Term(t, y, n - 1),
               Value(t, Xor(x, y), n - 1), Term(t, Xor(x, y), n - 1));
    }
  }

  /** Higher bits that are not there do not count. */
  lemma {:induction false} ValueWithin(t: Elem -> Elem, w: Word, k: nat, n: nat)
    requires k <= n <= 32 && Within(w, k)
    ensures Value(t, w, n) == Value(t, w, k)
  {
    if k < n {
      ValueWithin(t, w, k, n - 1);
      AddNil(Value(t, w, n - 1));
    }
  }

  lemma SelMapped(t: Elem -> Elem, on: bool, x: Elem)
    requires Additive(Add, Nil(), t)
    ensures t(Sel(on, x)) == Sel(on, t(x))
  {
    ByAdditive(Add, Nil(), t, Nil(), Nil());
  }

  /** Shifting by a symbol multiplies by the root. */
  lemma {:induction false} ValueShifted(t: Elem -> Elem, c: Word, n: nat)
    requires n <= 25 && Additive(Add, Nil(), t)
    ensures Value(t, Shifted(c), n + 5) == t(Value(t, c, n))
  {
    if n == 0 {
      ByAdditive(Add, Nil(), t, Nil(), Nil());
      LowBitsEmpty(t, Shifted(c));
    } else {
      ValueShifted(t, c, n - 1);
      SelMapped(t, c.b[n - 1], Weight(t, n - 1));
      assert Shifted(c).b[n + 4] == c.b[n - 1];
      assert Term(t, Shifted(c), n + 4) == t(Term(t, c, n - 1));
      ByAdditive(Add, Nil(), t, Value(t, c, n - 1), Term(t, c, n - 1));
    }
  }

  lemma LowBitsEmpty(t: Elem -> Elem, w: Word)
    requires forall i :: 0 <= i < 5 ==> !w.b[i]
    ensures Value(t, w, 5) == Nil()
  {
    AddNil(Nil());
    assert Value(t, w, 1) == Nil();
    assert Value(t, w, 2) == Nil();
    assert Value(t, w, 3) == Nil();
    assert Value(t, w, 4) == Nil();
  }

  /** What the bits of `c` above 25, from number n on, become with one more multiplication. */
  function Top(t: Elem -> Elem, c: Word, n: nat): Elem
    decreases 5 - n
  {
    if n >= 5 then Nil() else Add(Sel(c.b[25 + n], Weight(t, 30 + n)), Top(t, c, n + 1))
  }

  /** Here and below `m` is the length of the register, 30 bits. */
  lemma {:induction false} TopIs(t: Elem -> Elem, c: Word, n: nat, m: nat)
    requires n <= 5 && 29 < m < 31 && Additive(Add, Nil(), t)
    ensures Add(t(Value(t, c, m - 5 + n)), Top(t, c, n)) == t(Value(t, c, m))
    decreases 5 - n
  {
    if n == 5 {
      AddNil(t(Value(t, c, m)));
    } else {
      TopIs(t, c, n + 1, m);
      var i := m - 5 + n;
      var v, on, w := Value(t, c, i), c.b[i], Weight(t, i);
      SelMapped(t, on, w);
      ByAdditive(Add, Nil(), t, v, Sel(on, w));
      AddAssociates(t(v), Sel(on, t(w)), Top(t, c, n + 1));
    }
  }

  /** The generator vanishes at the root; kept closed. */
  ghost predicate IsRoot(t: Elem -> Elem) {
    forall key: int :: Key(20, key) ==>
      && Additive(Add, Nil(), t)
      && forall n: nat, m: nat :: n < 5 && 29 < m < 31 ==> Value(t, FromInt(Generator(n)), m) == Weight(t, m + n)
  }

  lemma ByRoot(t: Elem -> Elem, n: nat, m: nat)
    requires IsRoot(t) && 29 < m < 31
    ensures Additive(Add, Nil(), t) && (n < 5 ==> Value(t, FromInt(Generator(n)), m) == Weight(t, m + n))
  {
    assert Key(20, 0);
  }

  lemma ValueZero(t: Elem -> Elem, n: nat)
    requires n <= 32
    ensures Value(t, Zero(), n) == Nil()
  {
    ValueWithin(t, Zero(), 0, n);
  }

  lemma {:induction false} ValueFeedback(t: Elem -> Elem, c: Word, n: nat, m: nat)
    requires IsRoot(t) && n <= 5 && 29 < m < 31
    ensures Value(t, FeedbackFrom(ShiftRight(c, 25), n), m) == Top(t, c, n)
    decreases 5 - n
  {
    if n == 5 {
      ValueZero(t, m);
    } else {
      var c0 := ShiftRight(c, 25);
      ValueFeedback(t, c, n + 1, m);
      ByRoot(t, n, m);
      ValueZero(t, m);
      var g := FromInt(Generator(n));
      assert c0.b[n] == c.b[25 + n];
      assert Value(t, Part(c0.b[n], g), m) == Sel(c.b[25 + n], Weight(t, m + n));
      ValueXor(t, Part(c0.b[n], g), FeedbackFrom(c0, n + 1), m);
    }
  }

  lemma ValueSum(t: Elem -> Elem, c: Word, v: Word, f: Word, top: Elem, m: nat)
    requires 29 < m < 31 && Additive(Add, Nil(), t) && Value(t, f, m) == top
    requires Add(t(Value(t, c, m - 5)), top) == t(Value(t, c, m))
    ensures Value(t, Xor(Xor(Shifted(c), v), f), m) == Add(t(Value(t, c, m)), Value(t, v, m))
  {
    ValueThree(t, Shifted(c), v, f, m);
    ValueShifted(t, c, m - 5);
  }

  /** The feedback is what the highest symbol becomes. */
  lemma FeedbackValue(t: Elem -> Elem, c: Word, f: Word, n: nat, m: nat)
    requires IsRoot(t) && 29 < m < 31 && n <= 5 && f == FeedbackFrom(ShiftRight(c, 25), n)
    ensures Add(t(Value(t, c, m - 5 + n)), Value(t, f, m)) == t(Value(t, c, m))
  {
    ByRoot(t, 5, m);
    ValueFeedback(t, c, n, m);
    TopIs(t, c, n, m);
  }

  /** `s` is the step from `c` with `v`, and `f` its feedback; kept closed. */
  ghost predicate IsStep(c: Word, v: Word, s: Word, f: Word) {
    forall key: int :: Key(21, key) ==> s == Step(c, v) && f == FeedbackFrom(ShiftRight(c, 25), 0)
  }

  lemma StepParts(c: Word, v: Word, s: Word, f: Word)
    requires IsStep(c, v, s, f)
    ensures s == Xor(Xor(Shifted(c), v), f)
  {
    assert Key(21, 0);
  }

  lemma StepFeedback(t: Elem -> Elem, c: Word, v: Word, s: Word, f: Word, m: nat)
    requires IsRoot(t) && 29 < m < 31 && IsStep(c, v, s, f)
    ensures Add(t(Value(t, c, m - 5)), Value(t, f, m)) == t(Value(t, c, m))
  {
    assert Key(21, 0);
    FeedbackValue(t, c, f, 0, m);
  }

  /** A step multiplies by the root and adds the symbol. */
  lemma ValueStep(t: Elem -> Elem, c: Word, v: Word, s: Word, f: Word, m: nat)
    requires IsRoot(t) && 29 < m < 31 && IsStep(c, v, s, f)
    ensures Value(t, s, m) == Add(t(Value(t, c, m)), Value(t, v, m))
  {
    ByRoot(t, 5, m);
    StepParts(c, v, s, f);
    StepFeedback(t, c, v, s, f, m);
    ValueSum(t, c, v, f, Value(t, f, m), m);
  }

  lemma ValueThree(t: Elem -> Elem, x: Word, y: Word, z: Word, m: nat)
    requires m <= 32
    ensures Value(t, Xor(Xor(x, y), z), m) == Add(Add(Value(t, x, m), Value(t, z, m)), Value(t, y, m))
  {
    ValueXor(t, Xor(x, y), z, m);
    ValueXor(t, x, y, m);
    Rearrange(Value(t, x, m), Value(t, y, m), Value(t, z, m));
  }

  lemma Rearrange(x: Elem, y: Elem, z: Elem)
    ensures Add(Add(x, y), z) == Add(Add(x, z), y)
  {
    AddPairs(x, y, z, Nil());
    AddNil(z);
    AddNil(y);
  }
}
