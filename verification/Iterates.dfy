/**
 Repeated maps, over any values with an addition in which every value is its own negative.  The laws are kept closed;
 the lemmas called `By...` open them for given values.
 */
module Iterates {

  import opened Closed

  function Iter<V>(f: V -> V, n: nat, v: V): V { if n == 0 then v else f(Iter(f, n - 1, v)) }

  lemma {:induction false} IterAdds<V(!new)>(f: V -> V, m: nat, n: nat, v: V)
    ensures Iter(f, m, Iter(f, n, v)) == Iter(f, m + n, v)
  {
    if m > 0 { IterAdds(f, m - 1, n, v); }
  }

  // ----- linear maps

  ghost predicate Additive<V(!new)>(add: (V, V) -> V, zero: V, f: V -> V) {
    forall key: int :: Key(10, key) ==> f(zero) == zero && forall x, y :: f(add(x, y)) == add(f(x), f(y))
  }

  lemma ByAdditive<V(!new)>(add: (V, V) -> V, zero: V, f: V -> V, x: V, y: V)
    requires Additive(add, zero, f)
    ensures f(zero) == zero && f(add(x, y)) == add(f(x), f(y))
  {
    assert Key(10, 0);
  }

  lemma {:induction false} IterLinear<V(!new)>(add: (V, V) -> V, zero: V, f: V -> V, n: nat, x: V, y: V)
    requires Additive(add, zero, f)
    ensures Iter(f, n, add(x, y)) == add(Iter(f, n, x), Iter(f, n, y)) && Iter(f, n, zero) == zero
  {
    if n > 0 {
      IterLinear(add, zero, f, n - 1, x, y);
      ByAdditive(add, zero, f, Iter(f, n - 1, x), Iter(f, n - 1, y));
    }
  }

  // ----- commuting maps

  ghost predicate Commuting<V(!new)>(f: V -> V, g: V -> V) {
    forall key: int :: Key(11, key) ==> forall x :: f(g(x)) == g(f(x))
  }

  lemma ByCommuting<V(!new)>(f: V -> V, g: V -> V, x: V)
    requires Commuting(f, g)
    ensures f(g(x)) == g(f(x))
  {
    assert Key(11, 0);
  }

  lemma {:induction false} IterCommutes<V(!new)>(f: V -> V, g: V -> V, n: nat, v: V)
    requires Commuting(f, g)
    ensures Iter(f, n, g(v)) == g(Iter(f, n, v))
  {
    if n > 0 {
      IterCommutes(f, g, n - 1, v);
      ByCommuting(f, g, Iter(f, n - 1, v));
    }
  }

  ghost predicate Composed<V(!new)>(h: V -> V, f: V -> V, g: V -> V) {
    forall key: int :: Key(12, key) ==> forall x :: h(x) == f(g(x))
  }

  lemma ByComposed<V(!new)>(h: V -> V, f: V -> V, g: V -> V, x: V)
    requires Composed(h, f, g)
    ensures h(x) == f(g(x))
  {
    assert Key(12, 0);
  }

  lemma AdditiveComposed<V(!new)>(add: (V, V) -> V, zero: V, h: V -> V, f: V -> V, g: V -> V)
    requires Composed(h, f, g) && Additive(add, zero, f) && Additive(add, zero, g)
    ensures Additive(add, zero, h)
  {
    ByComposed(h, f, g, zero);
    ByAdditive(add, zero, f, zero, zero);
    ByAdditive(add, zero, g, zero, zero);
    forall x, y ensures h(add(x, y)) == add(h(x), h(y)) {
      ByComposed(h, f, g, x);
      ByComposed(h, f, g, y);
      ByComposed(h, f, g, add(x, y));
      ByAdditive(add, zero, g, x, y);
      ByAdditive(add, zero, f, g(x), g(y));
    }
  }

  /** Iterates of a composition of commuting maps. */
  lemma {:induction false} IterComposed<V(!new)>(h: V -> V, f: V -> V, g: V -> V, n: nat, v: V)
    requires Composed(h, f, g) && Commuting(f, g)
    ensures Iter(h, n, v) == Iter(f, n, Iter(g, n, v))
  {
    if n > 0 {
      var w := Iter(g, n - 1, v);
      IterComposed(h, f, g, n - 1, v);
      ByComposed(h, f, g, Iter(f, n - 1, w));
      IterCommutes(f, g, n - 1, w);
    }
  }

  // ----- injective maps and fixed values

  ghost predicate Injective<V(!new)>(f: V -> V) {
    forall key: int :: Key(13, key) ==> forall x, y :: f(x) == f(y) ==> x == y
  }

  lemma ByInjective<V(!new)>(f: V -> V, x: V, y: V)
    requires Injective(f) && f(x) == f(y)
    ensures x == y
  {
    assert Key(13, 0);
  }

  lemma {:induction false} IterInjective<V(!new)>(f: V -> V, n: nat, x: V, y: V)
    requires Injective(f) && Iter(f, n, x) == Iter(f, n, y)
    ensures x == y
  {
    if n > 0 {
      ByInjective(f, Iter(f, n - 1, x), Iter(f, n - 1, y));
      IterInjective(f, n - 1, x, y);
    }
  }

  lemma {:induction false} FixedByMultiples<V(!new)>(f: V -> V, n: nat, k: nat, v: V)
    requires Iter(f, n, v) == v
    ensures n * k >= 0 && Iter(f, n * k, v) == v
  {
    if k == 0 {
      assert n * 0 == 0;
    } else {
      FixedByMultiples(f, n, k - 1, v);
      IterAdds(f, n, n * (k - 1), v);
      assert n * k == n + n * (k - 1);
    }
  }

  lemma FixedByDifference<V(!new)>(f: V -> V, m: nat, n: nat, v: V)
    requires Injective(f) && n <= m && Iter(f, m, v) == Iter(f, n, v)
    ensures Iter(f, m - n, v) == v
  {
    IterAdds(f, n, m - n, v);
    IterInjective(f, n, Iter(f, m - n, v), v);
  }

  /** A number of iterations may be taken modulo a period. */
  lemma FixedByRemainder<V(!new)>(f: V -> V, period: nat, k: nat, rest: nat, v: V)
    requires Iter(f, period, v) == v
    requires period * k + rest >= 0 && Iter(f, period * k + rest, v) == v
    ensures Iter(f, rest, v) == v
  {
    FixedByMultiples(f, period, k, v);
    IterAdds(f, rest, period * k, v);
  }

  // ----- three terms

  ghost predicate Laws<V(!new)>(add: (V, V) -> V, zero: V) {
    forall key: int :: Key(14, key) ==> LawsOpen(add, zero)
  }

  /** What the three-term argument uses of addition. */
  ghost predicate LawsOpen<V(!new)>(add: (V, V) -> V, zero: V) {
    && (forall p, q, r :: add(add(p, q), r) == zero ==> p == add(q, r))
    && (forall p, q, r, s :: add(add(add(p, q), r), s) == zero ==> add(p, r) == add(q, s))
    && (forall p, q, r :: add(add(p, q), add(q, r)) == add(p, r))
    && (forall p, q, r :: add(p, q) == add(p, r) ==> q == r)
    && (forall p, q :: add(p, q) == zero ==> p == q)
    && add(zero, zero) == zero
  }

  lemma BySum3<V(!new)>(add: (V, V) -> V, zero: V, p: V, q: V, r: V)
    requires Laws(add, zero) && add(add(p, q), r) == zero
    ensures p == add(q, r)
  {
    assert Key(14, 0);
  }

  lemma BySum4<V(!new)>(add: (V, V) -> V, zero: V, p: V, q: V, r: V, s: V)
    requires Laws(add, zero) && add(add(add(p, q), r), s) == zero
    ensures add(p, r) == add(q, s)
  {
    assert Key(14, 0);
  }

  lemma ByChain<V(!new)>(add: (V, V) -> V, zero: V, p: V, q: V, r: V)
    requires Laws(add, zero)
    ensures add(add(p, q), add(q, r)) == add(p, r)
  {
    assert Key(14, 0);
  }

  lemma ByCancel<V(!new)>(add: (V, V) -> V, zero: V, p: V, q: V, r: V)
    requires Laws(add, zero) && add(p, q) == add(p, r)
    ensures q == r
  {
    assert Key(14, 0);
  }

  lemma ByZero<V(!new)>(add: (V, V) -> V, zero: V, p: V, q: V)
    requires Laws(add, zero)
    ensures (add(p, q) == zero ==> p == q) && add(zero, zero) == zero
  {
    assert Key(14, 0);
  }

  /** Different powers of `e`, less than 1023 apart, agree on zero only. */
  ghost predicate Separates<V(!new)>(e: V -> V, zero: V) {
    forall key: int :: Key(15, key) ==>
      forall m: nat, n: nat, u :: n < m < n + 1023 && Iter(e, m, u) == Iter(e, n, u) ==> u == zero
  }

  lemma BySeparates<V(!new)>(e: V -> V, zero: V, m: nat, n: nat, u: V)
    requires Separates(e, zero) && n < m < n + 1023 && Iter(e, m, u) == Iter(e, n, u)
    ensures u == zero
  {
    assert Key(15, 0);
  }

  lemma Spread<V(!new)>(add: (V, V) -> V, zero: V, e: V -> V, n: nat, x: nat, y: nat, b: V, x': nat, y': nat)
    requires Additive(add, zero, e) && x' == n + x && y' == n + y
    ensures Iter(e, n, add(Iter(e, x, b), Iter(e, y, b))) == add(Iter(e, x', b), Iter(e, y', b))
  {
    IterLinear(add, zero, e, n, Iter(e, x, b), Iter(e, y, b));
    IterAdds(e, n, x, b);
    IterAdds(e, n, y, b);
  }

  /** The square of the difference of two powers, in two steps. */
  lemma Squared<V(!new)>(add: (V, V) -> V, zero: V, e: V -> V, x: nat, y: nat, b: V, u: V)
    requires Laws(add, zero) && Additive(add, zero, e) && u == add(Iter(e, x, b), Iter(e, y, b))
    ensures add(Iter(e, x, u), Iter(e, y, u)) == add(Iter(e, 2 * x, b), Iter(e, 2 * y, b))
  {
    Spread(add, zero, e, x, x, y, b, 2 * x, x + y);
    Spread(add, zero, e, y, x, y, b, x + y, 2 * y);
    ByChain(add, zero, Iter(e, 2 * x, b), Iter(e, x + y, b), Iter(e, 2 * y, b));
  }

  /** Taking a == b + c out of a sum of three terms. */
  lemma Substituted<V(!new)>(add: (V, V) -> V, zero: V, e: V -> V, x: nat, y: nat, z: nat, a: V, b: V, c: V)
    requires Laws(add, zero) && Additive(add, zero, e) && a == add(b, c)
    requires add(add(Iter(e, x, a), Iter(e, y, b)), Iter(e, z, c)) == zero
    ensures add(Iter(e, x, b), Iter(e, y, b)) == add(Iter(e, x, c), Iter(e, z, c))
  {
    IterLinear(add, zero, e, x, b, c);
    BySum4(add, zero, Iter(e, x, b), Iter(e, x, c), Iter(e, y, b), Iter(e, z, c));
  }

  /** Three terms that vanish, together with their first and second multiples by different powers, are all zero. */
  lemma ThreeTerms<V(!new)>(add: (V, V) -> V, zero: V, e: V -> V, x: nat, y: nat, z: nat, a: V, b: V, c: V)
    requires z < y < x < z + 1023 && Laws(add, zero) && Additive(add, zero, e) && Separates(e, zero)
    requires add(add(a, b), c) == zero
    requires add(add(Iter(e, x, a), Iter(e, y, b)), Iter(e, z, c)) == zero
    requires add(add(Iter(e, 2 * x, a), Iter(e, 2 * y, b)), Iter(e, 2 * z, c)) == zero
    ensures a == zero && b == zero && c == zero
  {
    BySum3(add, zero, a, b, c);
    Substituted(add, zero, e, x, y, z, a, b, c);
    Substituted(add, zero, e, 2 * x, 2 * y, 2 * z, a, b, c);
    var u := add(Iter(e, x, b), Iter(e, y, b));
    Squared(add, zero, e, x, y, b, u);
    Squared(add, zero, e, x, z, c, u);
    ByCancel(add, zero, Iter(e, x, u), Iter(e, y, u), Iter(e, z, u));
    BySeparates(e, zero, y, z, u);
    ByZero(add, zero, Iter(e, x, b), Iter(e, y, b));
    BySeparates(e, zero, x, y, b);
    ByZero(add, zero, Iter(e, x, c), Iter(e, z, c));
    BySeparates(e, zero, x, z, c);
  }

  // ----- sums in which a map runs along

  ghost predicate Neutral<V(!new)>(add: (V, V) -> V, zero: V) {
    forall key: int :: Key(16, key) ==> forall x :: add(x, zero) == x && add(zero, x) == x
  }

  lemma ByNeutral<V(!new)>(add: (V, V) -> V, zero: V, x: V)
    requires Neutral(add, zero)
    ensures add(x, zero) == x && add(zero, x) == x
  {
    assert Key(16, 0);
  }

  /** Each value is mapped once for every value after it. */
  function RunSum<V>(add: (V, V) -> V, zero: V, t: V -> V, vs: seq<V>): V {
    if vs == [] then zero else add(t(RunSum(add, zero, t, vs[..|vs| - 1])), vs[|vs| - 1])
  }

  lemma {:induction false} ZerosPass<V(!new)>(add: (V, V) -> V, zero: V, t: V -> V, vs: seq<V>, k: nat)
    requires Neutral(add, zero) && k <= |vs| && forall i :: k <= i < |vs| ==> vs[i] == zero
    ensures RunSum(add, zero, t, vs) == Iter(t, |vs| - k, RunSum(add, zero, t, vs[..k]))
    decreases |vs|
  {
    if k == |vs| {
      assert vs[..k] == vs;
    } else {
      var l := |vs| - 1;
      ZerosPass(add, zero, t, vs[..l], k);
      assert vs[..l][..k] == vs[..k];
      ByNeutral(add, zero, t(RunSum(add, zero, t, vs[..l])));
    }
  }

  /** One more value after zeros. */
  lemma NextValue<V(!new)>(add: (V, V) -> V, zero: V, t: V -> V, vs: seq<V>, k: nat, j: nat, n: nat, before: V)
    requires Neutral(add, zero) && k <= j < |vs| && n == j + 1 - k && (forall i :: k <= i < j ==> vs[i] == zero)
    requires before == RunSum(add, zero, t, vs[..k])
    ensures RunSum(add, zero, t, vs[..j + 1]) == add(Iter(t, n, before), vs[j])
  {
    var us := vs[..j + 1];
    assert us[..j] == vs[..j] && vs[..j][..k] == vs[..k];
    ZerosPass(add, zero, t, vs[..j], k);
  }

  lemma Pushed<V(!new)>(add: (V, V) -> V, zero: V, t: V -> V, n: nat, m: nat, a: V, b: V, k: nat)
    requires Additive(add, zero, t) && k == n + m
    ensures Iter(t, n, add(Iter(t, m, a), b)) == add(Iter(t, k, a), Iter(t, n, b))
  {
    IterLinear(add, zero, t, n, Iter(t, m, a), b);
    IterAdds(t, n, m, a);
  }

  /** A sum with at most three values that are not zero. */
  lemma SparseSum<V(!new)
    >(add: (V, V) -> V, zero: V, t: V -> V, vs: seq<V>, p: nat, q: nat, r: nat, x: nat, y: nat, z: nat)
    requires Neutral(add, zero) && Additive(add, zero, t) && p < q < r < |vs|
    requires x == |vs| - 1 - p && y == |vs| - 1 - q && z == |vs| - 1 - r
    requires forall i :: 0 <= i < |vs| && i != p && i != q && i != r ==> vs[i] == zero
    ensures RunSum(add, zero, t, vs) == add(add(Iter(t, x, vs[p]), Iter(t, y, vs[q])), Iter(t, z, vs[r]))
  {
    SparseStart(add, zero, t, vs, p, q, r);
    ZerosPass(add, zero, t, vs, r + 1);
    SparseParts(add, zero, t, p, q, r, z, vs[p], vs[q], vs[r]);
  }

  lemma FirstValue<V(!new)>(add: (V, V) -> V, zero: V, t: V -> V, vs: seq<V>, p: nat)
    requires Neutral(add, zero) && Additive(add, zero, t) && p < |vs| && forall i :: 0 <= i < p ==> vs[i] == zero
    ensures RunSum(add, zero, t, vs[..p + 1]) == vs[p]
  {
    NextValue(add, zero, t, vs, 0, p, p + 1, zero);
    IterLinear(add, zero, t, p + 1, zero, zero);
    ByNeutral(add, zero, vs[p]);
  }

  lemma SparseStart<V(!new)>(add: (V, V) -> V, zero: V, t: V -> V, vs: seq<V>, p: nat, q: nat, r: nat)
    requires Neutral(add, zero) && Additive(add, zero, t) && p < q < r < |vs|
    requires forall i :: 0 <= i < r && i != p && i != q ==> vs[i] == zero
    ensures RunSum(add, zero, t, vs[..r + 1]) == add(Iter(t, r - q, add(Iter(t, q - p, vs[p]), vs[q])), vs[r])
  {
    SecondValue(add, zero, t, vs, p, q);
    NextValue(add, zero, t, vs, q + 1, r, r - q, add(Iter(t, q - p, vs[p]), vs[q]));
  }

  lemma SecondValue<V(!new)>(add: (V, V) -> V, zero: V, t: V -> V, vs: seq<V>, p: nat, q: nat)
    requires Neutral(add, zero) && Additive(add, zero, t) && p < q < |vs|
    requires forall i :: 0 <= i < q && i != p ==> vs[i] == zero
    ensures RunSum(add, zero, t, vs[..q + 1]) == add(Iter(t, q - p, vs[p]), vs[q])
  {
    FirstValue(add, zero, t, vs, p);
    NextValue(add, zero, t, vs, p + 1, q, q - p, vs[p]);
  }

  lemma SparseParts<V(!new)>(add: (V, V) -> V, zero: V, t: V -> V, p: nat, q: nat, r: nat, z: nat, a: V, b: V, c: V)
    requires Additive(add, zero, t) && p < q < r
    ensures Iter(t, z, add(Iter(t, r - q, add(Iter(t, q - p, a), b)), c)) ==
            add(add(Iter(t, z + r - p, a), Iter(t, z + r - q, b)), Iter(t, z, c))
  {
    Pushed(add, zero, t, z, r - q, add(Iter(t, q - p, a), b), c, z + r - q);
    Pushed(add, zero, t, z + r - q, q - p, a, b, z + r - p);
  }
}
