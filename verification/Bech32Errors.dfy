module Bech32Errors {

  /**
   Detection of any three errors within 1023 symbols: the difference of two valid lists vanishes at three consecutive
   powers of e, which three terms cannot.
   */

  import opened Common
  import opened Closed
  import opened Words
  import opened Bech32
  import opened Iterates
  import opened ErrorField
  import opened Bech32Roots
  import opened Bech32Constants

  // ----- symbols

  /** A symbol of five bits as an element of the field. */
  function Symbol(v: Word): Elem {
    Add(Add(Add(Add(Sel(v.b[0], Basis(0)), Sel(v.b[1], Basis(1))), Sel(v.b[2], Basis(2))), Sel(v.b[3], Basis(3))),
        Sel(v.b[4], Basis(4)))
  }

  lemma FirstFive(t: Elem -> Elem, v: Word)
    ensures Value(t, v, 5) == Symbol(v)
  {
    var s0, s1, s2 := Sel(v.b[0], Basis(0)), Sel(v.b[1], Basis(1)), Sel(v.b[2], Basis(2));
    var s3, s4 := Sel(v.b[3], Basis(3)), Sel(v.b[4], Basis(4));
    AddNil(s0);
    assert Value(t, v, 0) == Nil() && Term(t, v, 0) == s0;
    assert Value(t, v, 1) == s0 && Term(t, v, 1) == s1;
    assert Value(t, v, 2) == Add(s0, s1) && Term(t, v, 2) == s2;
    assert Value(t, v, 3) == Add(Add(s0, s1), s2) && Term(t, v, 3) == s3;
    assert Value(t, v, 4) == Add(Add(Add(s0, s1), s2), s3) && Term(t, v, 4) == s4;
  }

  lemma SymbolIs(t: Elem -> Elem, v: Word, m: nat)
    requires Within(v, 5) && 5 <= m <= 32
    ensures Value(t, v, m) == Symbol(v)
  {
    ValueWithin(t, v, 5, m);
    FirstFive(t, v);
  }

  lemma Independent(a: bool, b: bool, c: bool, d: bool, e: bool)
    requires Add(Add(Add(Add(Sel(a, Basis(0)), Sel(b, Basis(1))), Sel(c, Basis(2))), Sel(d, Basis(3))),
             Sel(e, Basis(4))) == Nil()
    ensures !a && !b && !c && !d && !e
  {
  }

  /** Only the symbol zero is zero. */
  lemma SymbolNil(v: Word)
    requires Within(v, 5) && Symbol(v) == Nil()
    ensures v == Zero()
  {
    Independent(v.b[0], v.b[1], v.b[2], v.b[3], v.b[4]);
    SameBits(v, Zero());
  }

  lemma ZeroIsNil()
    ensures Symbol(Zero()) == Nil()
  {
  }

  ghost function SymbolValues(ds: seq<Word>): (vs: seq<Elem>)
    ensures |vs| == |ds| && forall i :: 0 <= i < |ds| ==> vs[i] == Symbol(ds[i])
  {
    seq(|ds|, i requires 0 <= i < |ds| => Symbol(ds[i]))
  }

  // ----- the value of a whole list

  lemma MakeStep(c: Word, v: Word) returns (s: Word, f: Word)
    ensures s == Step(c, v) && IsStep(c, v, s, f)
  {
    s, f := Step(c, v), FeedbackFrom(ShiftRight(c, 25), 0);
  }

  lemma {:induction false} ValueRun(t: Elem -> Elem, ds: seq<Word>, m: nat)
    requires IsRoot(t) && Narrow(ds) && 29 < m < 31
    ensures Value(t, Run(Zero(), ds), m) == RunSum(Add, Nil(), t, SymbolValues(ds))
    decreases |ds|
  {
    if ds == [] {
      ValueZero(t, m);
    } else {
      var l := |ds| - 1;
      ValueRun(t, ds[..l], m);
      assert SymbolValues(ds)[..l] == SymbolValues(ds[..l]);
      RunStep(t, Run(Zero(), ds[..l]), ds[l], Run(Zero(), ds), m);
    }
  }

  lemma RunStep(t: Elem -> Elem, c: Word, v: Word, s: Word, m: nat)
    requires IsRoot(t) && Within(v, 5) && 29 < m < 31 && s == Step(c, v)
    ensures Value(t, s, m) == Add(t(Value(t, c, m)), Symbol(v))
  {
    var s', f := MakeStep(c, v);
    ValueStep(t, c, v, s', f, m);
    SymbolIs(t, v, m);
  }

  lemma AddNeutral()
    ensures Neutral(Add, Nil())
  {
    forall x ensures Add(x, Nil()) == x && Add(Nil(), x) == x { AddNil(x); }
  }

  /** At most three symbols, at p, q and r, are not zero. */
  ghost predicate Sparse(ds: seq<Word>, p: nat, q: nat, r: nat) {
    && p < q < r < |ds| && Narrow(ds)
    && forall i :: 0 <= i < |ds| && i != p && i != q && i != r ==> ds[i] == Zero()
  }

  /** If such a list leaves the register at zero, its value at the root vanishes. */
  lemma RootVanishes(t: Elem -> Elem, ds: seq<Word>, p: nat, q: nat, r: nat, x: nat, y: nat, z: nat, m: nat)
    requires IsRoot(t) && Sparse(ds, p, q, r) && Run(Zero(), ds) == Zero() && 29 < m < 31
    requires x == |ds| - 1 - p && y == |ds| - 1 - q && z == |ds| - 1 - r
    ensures Add(Add(Iter(t, x, Symbol(ds[p])), Iter(t, y, Symbol(ds[q]))), Iter(t, z, Symbol(ds[r]))) == Nil()
  {
    ValueRun(t, ds, m);
    ValueZero(t, m);
    AddNeutral();
    ZeroIsNil();
    ByRoot(t, 5, m);
    SparseSum(Add, Nil(), t, SymbolValues(ds), p, q, r, x, y, z);
  }

  // ----- the three roots

  lemma RootsCommute()
    ensures Commuting(E, R) && Commuting(E, ER)
  {
    ECommutes();
    forall x ensures E(ER(x)) == ER(E(x)) { Commute(x); }
  }

  lemma RootPowers(n: nat, v: Elem)
    ensures Iter(ER, n, v) == Iter(E, n, Iter(R, n, v)) && Iter(EER, n, v) == Iter(E, 2 * n, Iter(R, n, v))
  {
    RootsCompose();
    RootsCommute();
    IterComposed(ER, E, R, n, v);
    IterComposed(EER, E, ER, n, v);
    IterAdds(E, n, n, Iter(R, n, v));
  }

  /** Three terms that vanish at the three roots are zero. */
  lemma TermsVanish(x: nat, y: nat, z: nat, a: Elem, b: Elem, c: Elem)
    requires z < y < x < z + 1023
    requires Add(Add(Iter(R, x, a), Iter(R, y, b)), Iter(R, z, c)) == Nil()
    requires Add(Add(Iter(ER, x, a), Iter(ER, y, b)), Iter(ER, z, c)) == Nil()
    requires Add(Add(Iter(EER, x, a), Iter(EER, y, b)), Iter(EER, z, c)) == Nil()
    ensures a == Nil() && b == Nil() && c == Nil()
  {
    RootPowers(x, a);
    RootPowers(y, b);
    RootPowers(z, c);
    AddLaws();
    ELinear();
    ESeparates();
    ThreeTerms(Add, Nil(), E, x, y, z, Iter(R, x, a), Iter(R, y, b), Iter(R, z, c));
    IterRZero(x, a);
    IterRZero(y, b);
    IterRZero(z, c);
  }

  /** `a` is the symbol's value; kept closed. */
  ghost predicate HasValue(v: Word, a: Elem) { forall key: int :: Key(22, key) ==> a == Symbol(v) }

  lemma RootVanishesAt(k: nat, ds: seq<Word>, p: nat, q: nat, r: nat, x: nat, y: nat, z: nat, a: Elem, b: Elem, c: Elem)
    requires k < 3 && Sparse(ds, p, q, r) && Run(Zero(), ds) == Zero()
    requires x == |ds| - 1 - p && y == |ds| - 1 - q && z == |ds| - 1 - r
    requires HasValue(ds[p], a) && HasValue(ds[q], b) && HasValue(ds[r], c)
    ensures Add(Add(Iter(Root(k), x, a), Iter(Root(k), y, b)), Iter(Root(k), z, c)) == Nil()
  {
    assert Key(22, 0);
    RootsAreRoots(k);
    RootVanishes(Root(k), ds, p, q, r, x, y, z, 30);
  }

  lemma ValuesVanish(ds: seq<Word>, p: nat, q: nat, r: nat, a: Elem, b: Elem, c: Elem)
    requires Sparse(ds, p, q, r) && r < p + 1023 && Run(Zero(), ds) == Zero()
    requires HasValue(ds[p], a) && HasValue(ds[q], b) && HasValue(ds[r], c)
    ensures a == Nil() && b == Nil() && c == Nil()
  {
    var x, y, z := |ds| - 1 - p, |ds| - 1 - q, |ds| - 1 - r;
    RootVanishesAt(0, ds, p, q, r, x, y, z, a, b, c);
    RootVanishesAt(1, ds, p, q, r, x, y, z, a, b, c);
    RootVanishesAt(2, ds, p, q, r, x, y, z, a, b, c);
    TermsVanish(x, y, z, a, b, c);
  }

  /** At most three differences within a window of 1023 symbols never cancel, at any length. */
  lemma ThreeShow(ds: seq<Word>, p: nat, q: nat, r: nat)
    requires Sparse(ds, p, q, r) && r < p + 1023 && Run(Zero(), ds) == Zero()
    ensures AllZero(ds)
  {
    ValuesVanish(ds, p, q, r, Symbol(ds[p]), Symbol(ds[q]), Symbol(ds[r]));
    SymbolNil(ds[p]);
    SymbolNil(ds[q]);
    SymbolNil(ds[r]);
  }

  // ----- lists of values

  ghost predicate FiveBits(vs: seq<nat>) { forall i :: 0 <= i < |vs| ==> vs[i] < 32 }

  /** The lists agree outside three positions. */
  ghost predicate DifferAt(a: seq<nat>, b: seq<nat>, p: nat, q: nat, r: nat) {
    |a| == |b| && p < q < r < |a| && forall i :: 0 <= i < |a| && i != p && i != q && i != r ==> a[i] == b[i]
  }

  ghost function AllDifferences(n: nat, a: seq<nat>, b: seq<nat>): seq<Word>
    requires |a| == |b|
  {
    Zeros(n) + Window(a, b, 0, |a|)
  }

  lemma DifferencesSparse(n: nat, a: seq<nat>, b: seq<nat>, p: nat, q: nat, r: nat)
    requires DifferAt(a, b, p, q, r) && FiveBits(a) && FiveBits(b)
    ensures Sparse(AllDifferences(n, a, b), n + p, n + q, n + r)
  {
    WindowNarrow(a, b, 0, |a|);
    var ds := AllDifferences(n, a, b);
    forall i | 0 <= i < |ds| && i != n + p && i != n + q && i != n + r ensures ds[i] == Zero() {
      if i >= n { XorZero(FromInt(a[i - n])); }
    }
    assert Within(Zero(), 5);
  }

  lemma DifferencesCancel(x: seq<nat>, a: seq<nat>, b: seq<nat>)
    requires |a| == |b| && SameCheck(x, a, b)
    ensures Run(Zero(), AllDifferences(|x|, a, b)) == Zero()
  {
    assert Key(2, 0);
    BurstCheck(x, a, b, 0, |a|);
    assert Zeros(|x| + 0) + Window(a, b, 0, |a|) + Zeros(|a| - 0 - |a|) == AllDifferences(|x|, a, b);
    XorZero(Run(FromInt(1), Symbols(x + a)));
  }

  lemma DifferencesClose(n: nat, a: seq<nat>, b: seq<nat>)
    requires |a| == |b| && FiveBits(a) && FiveBits(b) && AllZero(AllDifferences(n, a, b))
    ensures a == b
  {
    forall i | 0 <= i < |a| ensures a[i] == b[i] {
      assert AllDifferences(n, a, b)[n + i] == Xor(FromInt(a[i]), FromInt(b[i]));
      XorCancel(FromInt(a[i]), FromInt(b[i]));
      SymbolsEqual(a[i], b[i]);
    }
  }

  /**
   Two lists that differ in at most three places within a window of 1023 and pass under the same encoding are the same.
   */
  lemma ThreeErrorsDetected(e: Encoding, hrp: seq<nat>, a: seq<nat>, b: seq<nat>, p: nat, q: nat, r: nat)
    requires DifferAt(a, b, p, q, r) && FiveBits(a) && FiveBits(b) && r < p + 1023
    requires Verified(hrp, a) == Some(e) && Verified(hrp, b) == Some(e)
    ensures a == b
  {
    var x := Expand(hrp);
    SameChecks(e, hrp, a, b);
    DifferencesSparse(|x|, a, b, p, q, r);
    DifferencesCancel(x, a, b);
    ThreeShow(AllDifferences(|x|, a, b), |x| + p, |x| + q, |x| + r);
    DifferencesClose(|x|, a, b);
  }

  lemma SameChecks(e: Encoding, hrp: seq<nat>, a: seq<nat>, b: seq<nat>)
    requires Verified(hrp, a) == Some(e) && Verified(hrp, b) == Some(e)
    ensures SameCheck(Expand(hrp), a, b)
  {
    VerifiedIs(e, hrp, a);
    VerifiedIs(e, hrp, b);
  }
}
