/** 32-bit words as their bits, least significant first, with the operations the checksum uses. */
module Words {

  import Powers = Bits

  datatype Bits = Bits(b: seq<bool>)

  type Word = w: Bits | |w.b| == 32 witness Bits(seq(32, i => false))

  lemma SameBits(x: Word, y: Word)
    requires forall i :: 0 <= i < 32 ==> x.b[i] == y.b[i]
    ensures x == y
  {
    assert x.b == y.b;
  }

  function Zero(): (r: Word)
    ensures forall i :: 0 <= i < 32 ==> !r.b[i]
  {
    Bits(seq(32, i => false))
  }

  function Xor(x: Word, y: Word): (r: Word)
    ensures forall i :: 0 <= i < 32 ==> r.b[i] == (x.b[i] != y.b[i])
  {
    Bits(seq(32, i requires 0 <= i < 32 => x.b[i] != y.b[i]))
  }

  function ShiftLeft(x: Word, k: nat): (r: Word)
    ensures forall i :: 0 <= i < 32 ==> r.b[i] == (i >= k && x.b[i - k])
  {
    Bits(seq(32, i requires 0 <= i < 32 => i >= k && x.b[i - k]))
  }

  function ShiftRight(x: Word, k: nat): (r: Word)
    ensures forall i :: 0 <= i < 32 ==> r.b[i] == (i + k < 32 && x.b[i + k])
  {
    Bits(seq(32, i requires 0 <= i < 32 => i + k < 32 && x.b[i + k]))
  }

  /** The lowest `k` bits. */
  function Keep(x: Word, k: nat): (r: Word)
    ensures forall i :: 0 <= i < 32 ==> r.b[i] == (i < k && x.b[i])
  {
    Bits(seq(32, i requires 0 <= i < 32 => i < k && x.b[i]))
  }

  function Bit(x: nat, i: nat): bool
    decreases i
  {
    if i == 0 then x % 2 == 1 else Bit(x / 2, i - 1)
  }

  function FromInt(x: nat): (r: Word)
    ensures forall i :: 0 <= i < 32 ==> r.b[i] == Bit(x, i)
  {
    Bits(seq(32, i requires 0 <= i < 32 => Bit(x, i)))
  }

  function ToInt(a: seq<bool>): nat {
    if a == [] then 0 else (if a[0] then 1 else 0) + 2 * ToInt(a[1..])
  }

  /** No bit at position `k` or above. */
  predicate Within(x: Word, k: nat) { forall i :: k <= i < 32 ==> !x.b[i] }

  lemma {:induction false} BitOfSmall(x: nat, k: nat, i: nat)
    requires x < Powers.Pow2(k) && k <= i
    ensures !Bit(x, i)
    decreases k
  {
    if k == 0 {
      BitOfZero(i);
    } else {
      BitOfSmall(x / 2, k - 1, i - 1);
    }
  }

  lemma {:induction false} BitOfZero(i: nat)
    ensures !Bit(0, i)
  {
    if i > 0 { BitOfZero(i - 1); }
  }

  lemma FromIntWithin(x: nat, k: nat)
    requires x < Powers.Pow2(k)
    ensures Within(FromInt(x), k)
  {
    forall i | k <= i < 32 ensures !FromInt(x).b[i] { BitOfSmall(x, k, i); }
  }

  /** A number is read back from its bits. */
  lemma {:induction false} BitsOfInt(x: nat, a: seq<bool>)
    requires x < Powers.Pow2(|a|) && forall i :: 0 <= i < |a| ==> a[i] == Bit(x, i)
    ensures ToInt(a) == x
  {
    if a != [] {
      forall i | 0 <= i < |a[1..]| ensures a[1..][i] == Bit(x / 2, i) { assert a[1..][i] == a[i + 1]; }
      BitsOfInt(x / 2, a[1..]);
    }
  }

  lemma {:induction false} IntOfBits(a: seq<bool>, i: nat)
    ensures ToInt(a) < Powers.Pow2(|a|)
    ensures i < |a| ==> Bit(ToInt(a), i) == a[i]
    decreases |a|
  {
    if a != [] {
      var r := a[1..];
      assert ToInt(a) == (if a[0] then 1 else 0) + 2 * ToInt(r);
      IntOfBits(r, if i == 0 then 0 else i - 1);
      assert ToInt(a) / 2 == ToInt(r);
    }
  }

  // ----- laws of XOR

  lemma XorZero(x: Word)
    ensures Xor(x, Zero()) == x && Xor(Zero(), x) == x && Xor(x, x) == Zero()
  {
    SameBits(Xor(x, Zero()), x);
    SameBits(Xor(Zero(), x), x);
    SameBits(Xor(x, x), Zero());
  }

  lemma XorCancel(x: Word, y: Word)
    requires Xor(x, y) == Zero()
    ensures x == y
  {
    forall i | 0 <= i < 32 ensures x.b[i] == y.b[i] { assert !Xor(x, y).b[i]; }
    SameBits(x, y);
  }

  lemma XorPairs(p: Word, q: Word, r: Word, s: Word)
    ensures Xor(Xor(p, q), Xor(r, s)) == Xor(Xor(p, r), Xor(q, s))
  {
    SameBits(Xor(Xor(p, q), Xor(r, s)), Xor(Xor(p, r), Xor(q, s)));
  }

  lemma XorAssociates(x: Word, y: Word, z: Word)
    ensures Xor(Xor(x, y), z) == Xor(x, Xor(y, z))
  {
    SameBits(Xor(Xor(x, y), z), Xor(x, Xor(y, z)));
  }

  lemma ShiftsXor(x: Word, y: Word, k: nat)
    ensures ShiftLeft(Xor(x, y), k) == Xor(ShiftLeft(x, k), ShiftLeft(y, k))
    ensures ShiftRight(Xor(x, y), k) == Xor(ShiftRight(x, k), ShiftRight(y, k))
    ensures Keep(Xor(x, y), k) == Xor(Keep(x, k), Keep(y, k))
  {
    SameBits(ShiftLeft(Xor(x, y), k), Xor(ShiftLeft(x, k), ShiftLeft(y, k)));
    SameBits(ShiftRight(Xor(x, y), k), Xor(ShiftRight(x, k), ShiftRight(y, k)));
    SameBits(Keep(Xor(x, y), k), Xor(Keep(x, k), Keep(y, k)));
  }
}
