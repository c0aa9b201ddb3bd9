/**
 The heights that skip pointers go back to, and how many of them lead to an ancestor.

 From height n to the height t below it, let j be the number of bits from which on n and t agree, the window.  Every
 step of the walk makes the window smaller, or keeps it and takes a '1' away from n (at the latest with the next
 step).  A window of j bits has at most j ones, so the walk takes fewer than (j + 1) * (j + 1) steps.
 */
module SkipHeights {

  import Bits

  // ----- heights to skip to

  /** Bitwise `&` on natural numbers. */
  function And(a: nat, b: nat): (r: nat)
    ensures r <= a && r <= b
  {
    if a == 0 || b == 0 then 0 else 2 * And(a / 2, b / 2) + (if a % 2 == 1 && b % 2 == 1 then 1 else 0)
  }

  /** The lowest '1' bit of a number. */
  function LowestOne(n: nat): (p: nat)
    requires n > 0
    ensures 0 < p <= n
  {
    if n % 2 == 1 then 1 else 2 * LowestOne(n / 2)
  }

  /** It is the power of two that goes into the number an odd number of times. */
  lemma {:induction false} LowestOneIs(n: nat) returns (k: nat, q: nat)
    requires n > 0
    ensures LowestOne(n) == Bits.Pow2(k) && n == LowestOne(n) * (2 * q + 1)
  {
    if n % 2 == 1 {
      k, q := 0, n / 2;
    } else {
      k, q := LowestOneIs(n / 2);
      Doubled(n / 2, LowestOne(n / 2), 2 * q + 1);
      k := k + 1;
    }
  }

  lemma Doubled(m: int, p: int, x: int)
    requires m == p * x
    ensures 2 * m == 2 * p * x
  {
  }

  /** What InvertLowestOne computes. */
  lemma {:induction false} AndBelow(n: nat)
    requires n > 0
    ensures And(n, n - 1) == n - LowestOne(n)
  {
    var h := n / 2;
    if n % 2 == 0 {
      AndBelow(h);
      assert (n - 1) / 2 == h - 1;
    } else {
      AndSelf(h);
      assert (n - 1) / 2 == h;
    }
  }

  lemma {:induction false} AndSelf(n: nat)
    ensures And(n, n) == n
  {
    if n > 0 { AndSelf(n / 2); }
  }

  /** Turn the lowest '1' bit of a number into a '0'. */
  function InvertLowestOne(n: nat): (r: nat)
    ensures if n == 0 then r == 0 else r < n
  {
    if n == 0 then 0 else And(n, n - 1)
  }

  /** The height a block's skip pointer goes back to. */
  function GetSkipHeight(height: nat): (r: nat)
    ensures if height == 0 then r == 0 else r < height
  {
    if height < 2 then 0
    else if height % 2 == 1 then InvertLowestOne(InvertLowestOne(height - 1)) + 1
    else InvertLowestOne(height)
  }

  /** One '1' is taken away from an even height, and two from an odd height without its last bit. */
  lemma SkipHeightIs(n: nat)
    requires n >= 2
    ensures n % 2 == 0 ==> GetSkipHeight(n) == n - LowestOne(n)
    ensures n % 2 == 1 ==>
              var rest := n - 1 - LowestOne(n - 1);
              GetSkipHeight(n) == 1 + if rest == 0 then 0 else rest - LowestOne(rest)
  {
    if n % 2 == 0 {
      AndBelow(n);
    } else {
      AndBelow(n - 1);
      var rest := n - 1 - LowestOne(n - 1);
      if rest > 0 { AndBelow(rest); }
    }
  }

  // ----- the next step of the walk to height `t`

  /** Whether the walk follows the skip pointer at height `n`. */
  predicate TakesSkip(n: nat, t: nat)
    requires n > 0
  {
    var skip, skipPrev := GetSkipHeight(n), GetSkipHeight(n - 1);
    skip == t || (skip > t && !(skipPrev < skip - 2 && skipPrev >= t))
  }

  function NextHeight(n: nat, t: nat): nat
    requires n > 0
  {
    if TakesSkip(n, t) then GetSkipHeight(n) else n - 1
  }

  /** The length of the walk from height `n` to height `t`. */
  function Steps(n: nat, t: nat): nat {
    if n <= t then 0 else 1 + Steps(NextHeight(n, t), t)
  }

  // ----- ones and windows

  /** The number of '1' bits. */
  function Ones(n: nat): nat { if n == 0 then 0 else n % 2 + Ones(n / 2) }

  /** The number of bits. */
  function Length(n: nat): nat { if n == 0 then 0 else 1 + Length(n / 2) }

  /** The bit from which on the two numbers agree. */
  function Window(n: nat, t: nat): nat
    decreases n + t
  {
    if n == t then 0 else 1 + Window(n / 2, t / 2)
  }

  function Upper(n: nat, j: nat): nat { if j == 0 then n else Upper(n / 2, j - 1) }

  lemma {:induction false} WindowAgrees(n: nat, t: nat)
    ensures Upper(n, Window(n, t)) == Upper(t, Window(n, t))
    decreases n + t
  {
    if n != t { WindowAgrees(n / 2, t / 2); }
  }

  lemma {:induction false} WindowMonotone(m: nat, n: nat, t: nat)
    requires t <= m <= n
    ensures Window(m, t) <= Window(n, t)
    decreases n + t
  {
    if m != t { WindowMonotone(m / 2, n / 2, t / 2); }
  }

  lemma {:induction false} WindowFits(n: nat, t: nat)
    requires t <= n
    ensures Window(n, t) <= Length(n)
  {
    if n != t { WindowFits(n / 2, t / 2); }
  }

  /** Below the lowest '1' of n, the step to n - 1 makes the window smaller. */
  lemma {:induction false} WindowShrinks(n: nat, t: nat)
    requires 0 < n && n - LowestOne(n) <= t < n
    ensures Window(n - 1, t) < Window(n, t)
  {
    if n - 1 != t {
      assert n % 2 == 0;
      WindowShrinks(n / 2, t / 2);
      assert (n - 1) / 2 == n / 2 - 1;
    }
  }

  /** Between j bits and the rest of the number there are no more than j ones. */
  lemma {:induction false} OnesBelow(n: nat, j: nat)
    ensures Ones(Upper(n, j)) <= Ones(n) <= Ones(Upper(n, j)) + j
    ensures j > 0 && n % 2 == 1 ==> Ones(n) > Ones(Upper(n, j))
  {
    if j > 0 { OnesBelow(n / 2, j - 1); }
  }

  lemma {:induction false} OnesLowest(n: nat)
    requires n > 0
    ensures Ones(n - LowestOne(n)) == Ones(n) - 1
  {
    if n % 2 == 0 {
      OnesLowest(n / 2);
      assert (n - LowestOne(n)) / 2 == n / 2 - LowestOne(n / 2) && (n - LowestOne(n)) % 2 == 0;
    } else {
      assert (n - 1) / 2 == n / 2 && (n - 1) % 2 == 0;
    }
  }

  lemma OnesOdd(n: nat)
    requires n % 2 == 1
    ensures Ones(n) == Ones(n - 1) + 1
  {
    OnesLowest(n);
  }

  lemma EvenStaysEven(n: nat)
    requires n > 0 && n % 2 == 0
    ensures (n - LowestOne(n)) % 2 == 0
  {
  }

  /** The skip pointer of an odd height leads to an odd height, or to 0, with fewer ones. */
  lemma OddSkip(n: nat)
    requires n % 2 == 1
    ensures Ones(GetSkipHeight(n)) <= Ones(n) - 1
    ensures n >= 3 ==> GetSkipHeight(n) % 2 == 1 && GetSkipHeight(n) <= GetSkipHeight(n - 1) + 1
  {
    OnesOdd(n);
    if n >= 3 {
      SkipHeightIs(n);
      SkipHeightIs(n - 1);
      var m := n - 1;
      var rest := m - LowestOne(m);
      OnesLowest(m);
      EvenStaysEven(m);
      if rest > 0 {
        OnesLowest(rest);
        EvenStaysEven(rest);
      }
      OnesOdd(GetSkipHeight(n));
    }
  }

  /** At an odd height the skip pointer is taken whenever it does not lead too far. */
  lemma OddTakes(n: nat, t: nat)
    requires n % 2 == 1 && t < n
    ensures TakesSkip(n, t) <==> GetSkipHeight(n) >= t
  {
    OddSkip(n);
  }

  lemma LowestDouble(m: nat)
    requires m > 0
    ensures LowestOne(2 * m) == 2 * LowestOne(m)
  {
  }

  lemma LowestOdd(m: nat)
    ensures LowestOne(2 * m + 1) == 1
  {
  }

  lemma EightSkips(q: nat)
    requires q > 0
    ensures GetSkipHeight(8 * q - 1) > GetSkipHeight(8 * q)
  {
    LowestDouble(q);
    LowestDouble(2 * q);
    LowestDouble(4 * q);
    LowestTwo(2 * q - 1);
    LowestFour(q - 1);
    OddSkipIs(8 * q - 1, 2, 4);
    SkipHeightIs(8 * q);
  }

  lemma LowestTwo(m: nat)
    ensures LowestOne(4 * m + 2) == 2
  {
    LowestDouble(2 * m + 1);
    LowestOdd(m);
  }

  lemma LowestFour(m: nat)
    ensures LowestOne(8 * m + 4) == 4
  {
    LowestDouble(4 * m + 2);
    LowestTwo(m);
  }

  lemma OddSkipIs(n: nat, x: nat, y: nat)
    requires n >= 3 && n % 2 == 1 && LowestOne(n - 1) == x && n - 1 > x && LowestOne(n - 1 - x) == y
    ensures GetSkipHeight(n) == n - x - y
  {
    SkipHeightIs(n);
  }

  /** If the skip pointer of the block before is better, it has fewer ones than the block itself. */
  lemma BetterSkip(n: nat)
    requires n >= 4 && n % 2 == 0 && GetSkipHeight(n - 1) < GetSkipHeight(n) - 2
    ensures Ones(GetSkipHeight(n - 1)) <= Ones(n) - 1
  {
    var k, q := EvenCases(n);
    BetterSkipAt(n, k, q);
  }

  lemma EvenCases(n: nat) returns (k: nat, q: nat)
    requires n % 2 == 0
    ensures (k == 0 && n == 8 * q) || (k == 1 && n == 8 * q + 4) || (k == 2 && n == 4 * q + 2)
  {
    q := n / 8;
    if n == 8 * q { k := 0; } else if n == 8 * q + 4 { k := 1; } else { k, q := 2, n / 4; }
  }

  lemma BetterSkipAt(n: nat, k: nat, q: nat)
    requires n >= 4 && GetSkipHeight(n - 1) < GetSkipHeight(n) - 2
    requires (k == 0 && n == 8 * q) || (k == 1 && n == 8 * q + 4) || (k == 2 && n == 4 * q + 2)
    ensures Ones(GetSkipHeight(n - 1)) <= Ones(n) - 1
  {
    if k == 0 {
      EightSkips(q);
    } else if k == 1 {
      FirstSkips();
      if q > 0 { FourSkips(q); }
    } else {
      TwoSkips(q);
    }
  }

  lemma TwoSkips(q: nat)
    requires q > 0
    ensures Ones(GetSkipHeight(4 * q + 1)) <= Ones(4 * q + 2) - 1
  {
    LowestTwo(q);
    OnesLowest(4 * q + 2);
    OnesOdd(4 * q + 1);
    OddSkip(4 * q + 1);
  }

  lemma FourSkips(q: nat)
    requires q > 0
    ensures Ones(GetSkipHeight(8 * q + 3)) <= Ones(8 * q + 4) - 1
  {
    LowestFour(q);
    assert Ones(8 * q) == Ones(8 * q + 4) - 1 by { OnesLowest(8 * q + 4); }
    LowestTwo(2 * q);
    OddSkipIs(8 * q + 3, 2, LowestOne(8 * q));
    OnesSwap(8 * q);
  }

  lemma FirstSkips()
    ensures GetSkipHeight(3) == 1 && GetSkipHeight(4) == 0
  {
    SkipHeightIs(3);
    SkipHeightIs(4);
    assert LowestOne(2) == 2 && LowestOne(4) == 4;
  }

  lemma OnesSwap(w: nat)
    requires w > 0 && w % 2 == 0
    ensures Ones(w - LowestOne(w) + 1) == Ones(w)
  {
    OnesLowest(w);
    EvenStaysEven(w);
    OnesOdd(w - LowestOne(w) + 1);
  }

  // ----- how many steps are left

  /** Twice the ones that may still be taken away, as far as they are known. */
  function Left(n: nat, t: nat): int {
    if n % 2 == 0 then 2 * Ones(n)
    else if GetSkipHeight(n) >= t then 2 * Ones(GetSkipHeight(n)) + 1
    else 2 * Ones(n) - 1
  }

  function Potential(n: nat, t: nat): int {
    if n == t then 0 else
      var j := Window(n, t);
      j * j + Left(n, t) - 2 * Ones(Upper(t, j))
  }

  lemma LeftBounds(n: nat, t: nat)
    requires t < n
    ensures 0 <= Left(n, t) - 2 * Ones(Upper(t, Window(n, t))) <= 2 * Window(n, t)
  {
    var j := Window(n, t);
    WindowAgrees(n, t);
    OnesBelow(n, j);
    if n % 2 == 1 {
      OddSkip(n);
      var skip := GetSkipHeight(n);
      if skip >= t {
        WindowMonotone(skip, n, t);
        SameUpper(skip, t, j);
        OnesBelow(skip, j);
      }
    }
  }

  /** Where two numbers agree, they agree further up as well. */
  lemma {:induction false} SameUpper(m: nat, t: nat, j: nat)
    requires Window(m, t) <= j
    ensures Upper(m, j) == Upper(t, j)
    decreases m + t
  {
    if m != t { SameUpper(m / 2, t / 2, j - 1); }
  }

  lemma Squares(i: nat, j: nat)
    requires i < j
    ensures i * i + 2 * i < j * j
  {
    assert (i + 1) * (i + 1) == i * i + 2 * i + 1;
    assert (i + 1) * (i + 1) <= j * j;
  }

  lemma PotentialBounds(n: nat, t: nat)
    requires t <= n
    ensures 0 <= Potential(n, t) <= Window(n, t) * Window(n, t) + 2 * Window(n, t)
    ensures t < n ==> 0 < Window(n, t) * Window(n, t) <= Potential(n, t)
  {
    if t < n {
      LeftBounds(n, t);
      SquareGrows(Window(n, t));
    }
  }

  lemma SquarePositive(j: nat)
    requires j > 0
    ensures j * j > 0
  {
  }

  lemma SquareGrows(j: nat)
    ensures j * j >= j
  {
  }

  /** A step makes the window smaller, or leaves less to be taken away. */
  lemma StepGains(n: nat, t: nat)
    requires t < n
    ensures t <= NextHeight(n, t) < n
    ensures Window(NextHeight(n, t), t) < Window(n, t) || Left(NextHeight(n, t), t) < Left(n, t)
  {
    if n % 2 == 1 {
      OddGains(n, t);
    } else {
      EvenGains(n, t);
    }
  }

  lemma OddGains(n: nat, t: nat)
    requires t < n && n % 2 == 1
    ensures t <= NextHeight(n, t) < n && Left(NextHeight(n, t), t) < Left(n, t)
  {
    OddTakes(n, t);
    OddSkip(n);
    var skip := GetSkipHeight(n);
    if skip >= t {
      if skip % 2 == 1 { OddSkip(skip); }
    } else {
      OnesOdd(n);
    }
  }

  lemma EvenGains(n: nat, t: nat)
    requires t < n && n % 2 == 0
    ensures t <= NextHeight(n, t) < n
    ensures Window(NextHeight(n, t), t) < Window(n, t) || Left(NextHeight(n, t), t) < Left(n, t)
  {
    var skip := GetSkipHeight(n);
    SkipHeightIs(n);
    if TakesSkip(n, t) {
      OnesLowest(n);
      EvenStaysEven(n);
    } else if skip < t {
      WindowShrinks(n, t);
    } else {
      BetterSkip(n);
    }
  }

  lemma StepLowers(n: nat, t: nat)
    requires t < n
    ensures t <= NextHeight(n, t) < n && Potential(NextHeight(n, t), t) < Potential(n, t)
  {
    var m := NextHeight(n, t);
    StepGains(n, t);
    PotentialBounds(n, t);
    if m > t {
      PotentialBounds(m, t);
      WindowMonotone(m, n, t);
      if Window(m, t) < Window(n, t) { Squares(Window(m, t), Window(n, t)); }
    }
  }

  lemma {:induction false} StepsPotential(n: nat, t: nat)
    requires t <= n
    ensures Steps(n, t) <= Potential(n, t)
  {
    if t < n {
      StepLowers(n, t);
      StepsPotential(NextHeight(n, t), t);
    }
  }

  function SquareOfLength(n: nat): nat { (Length(n) + 1) * (Length(n) + 1) }

  /** The walk is short: fewer steps than the square of the number of bits of the height, plus one. */
  lemma FewSteps(n: nat, t: nat)
    ensures Steps(n, t) < SquareOfLength(n)
  {
    SquarePositive(Length(n) + 1);
    if t < n {
      StepsPotential(n, t);
      PotentialBounds(n, t);
      WindowFits(n, t);
      Squares(Window(n, t), Length(n) + 1);
    }
  }
}
