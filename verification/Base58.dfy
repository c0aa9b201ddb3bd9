/** Base58 text of byte strings: base conversion in place, in buffers of fixed ratio. */
module Base58 {
  import opened Common
  import opened Closed
  import opened Radix

  type Byte = x: int | 0 <= x < 256

  // ----- the alphabet

  const ONE: Byte := 49

  /** pszBase58: the digits and letters without 0, I, O and l. */
  function Letter(d: int): (ch: Byte)
    requires 0 <= d < 58
    ensures ch != 0 && !IsSpace(ch) && Digit(ch) == d
  {
    if d < 9 then 49 + d
    else if d < 17 then 65 + (d - 9)
    else if d < 22 then 74 + (d - 17)
    else if d < 33 then 80 + (d - 22)
    else if d < 44 then 97 + (d - 33)
    else 109 + (d - 44)
  }

  /** mapBase58. */
  function Digit(ch: Byte): (d: int)
    ensures -1 <= d < 58
  {
    if 49 <= ch <= 57 then ch - 49
    else if 65 <= ch <= 72 then ch - 65 + 9
    else if 74 <= ch <= 78 then ch - 74 + 17
    else if 80 <= ch <= 90 then ch - 80 + 22
    else if 97 <= ch <= 107 then ch - 97 + 33
    else if 109 <= ch <= 122 then ch - 109 + 44
    else -1
  }

  predicate IsSpace(ch: Byte) { ch == 32 || 9 <= ch <= 13 }

  lemma LetterOfDigit(ch: Byte)
    requires Digit(ch) != -1
    ensures Letter(Digit(ch)) == ch
  {
  }

  // ----- what the codec computes

  function Zeroes(n: nat): seq<Byte> { seq(n, _ => 0) }
  function Ones(n: nat): seq<Byte> { seq(n, _ => ONE) }

  /** How many times `x` stands at the front. */
  function Leading(s: seq<Byte>, x: Byte): (n: nat)
    ensures n <= |s| && (n < |s| ==> s[n] != x) && forall i :: 0 <= i < n ==> s[i] == x
  {
    if s == [] || s[0] != x then 0 else 1 + Leading(s[1..], x)
  }

  function Letters(ds: seq<int>): (s: seq<Byte>)
    requires AllDigits(ds, 58)
    ensures |s| == |ds| && forall i :: 0 <= i < |ds| ==> s[i] == Letter(ds[i])
  {
    seq(|ds|, i requires 0 <= i < |ds| => Letter(ds[i]))
  }

  ghost function Encoded(x: seq<Byte>): seq<Byte> {
    var z := Leading(x, 0);
    ValueBounds(x[z..], 256);
    DigitsValue(Value(x[z..], 256), 58);
    Ones(z) + Letters(Digits(Value(x[z..], 256), 58))
  }

  function DropSpaces(s: seq<Byte>): seq<Byte> {
    if s != [] && IsSpace(s[0]) then DropSpaces(s[1..]) else s
  }

  /** The characters before the first space. */
  function Word(s: seq<Byte>): (w: seq<Byte>)
    ensures |w| <= |s|
  {
    if s == [] || IsSpace(s[0]) then [] else [s[0]] + Word(s[1..])
  }

  predicate NoNul(s: seq<Byte>) { forall i :: 0 <= i < |s| ==> s[i] != 0 }

  ghost predicate InAlphabet(w: seq<Byte>) { forall i :: 0 <= i < |w| ==> Digit(w[i]) != -1 }

  function DigitsOf(w: seq<Byte>): (ds: seq<int>)
    ensures |ds| == |w| && forall i :: 0 <= i < |w| ==> ds[i] == Digit(w[i])
  {
    seq(|w|, i requires 0 <= i < |w| => Digit(w[i]))
  }

  /** The bytes a word stands for. */
  ghost function Meaning(w: seq<Byte>): seq<int>
    requires InAlphabet(w)
  {
    var z := Leading(w, ONE);
    ValueBounds(DigitsOf(w[z..]), 58);
    Zeroes(z) + Digits(Value(DigitsOf(w[z..]), 58), 256)
  }

  /** The limit is only looked at once there is something to return. */
  ghost predicate Fits(bytes: seq<int>, limit: int) { bytes == [] || |bytes| <= limit }

  /** A word in the alphabet, then nothing but spaces. */
  ghost predicate ValidFrom(rest: seq<Byte>) { InAlphabet(Word(rest)) && DropSpaces(rest[|Word(rest)|..]) == [] }

  ghost function DecodedFrom(rest: seq<Byte>, limit: int): Option<seq<int>> {
    if ValidFrom(rest) && Fits(Meaning(Word(rest)), limit) then Some(Meaning(Word(rest))) else None
  }

  /** No NUL; spaces, a word, spaces; and a meaning within the limit. */
  ghost function Decoded(s: seq<Byte>, limit: int): Option<seq<int>> {
    if NoNul(s) then DecodedFrom(DropSpaces(s), limit) else None
  }

  // ----- encode then decode, decode then encode

  lemma LeadingIs(s: seq<Byte>, x: Byte, z: nat)
    requires z <= |s| && (forall i :: 0 <= i < z ==> s[i] == x) && (z < |s| ==> s[z] != x)
    ensures Leading(s, x) == z
  {
  }

  lemma {:induction false} WordWithoutSpaces(w: seq<Byte>)
    requires forall i :: 0 <= i < |w| ==> !IsSpace(w[i])
    ensures DropSpaces(w) == w && Word(w) == w
  {
    if w != [] { WordWithoutSpaces(w[1..]); }
  }

  lemma EncodedIsPlain(x: seq<Byte>)
    ensures NoNul(Encoded(x)) && InAlphabet(Encoded(x)) && forall i :: 0 <= i < |Encoded(x)| ==> !IsSpace(Encoded(x)[i])
  {
    var z := Leading(x, 0);
    ValueBounds(x[z..], 256);
    DigitsValue(Value(x[z..], 256), 58);
    var ls := Letters(Digits(Value(x[z..], 256), 58));
    forall i | 0 <= i < |Encoded(x)|
      ensures Encoded(x)[i] != 0 && Digit(Encoded(x)[i]) != -1 && !IsSpace(Encoded(x)[i])
    {
      if i >= z { assert Encoded(x)[i] == ls[i - z]; }
    }
  }

  /** A word of ones and canonical digits stands for zeroes and a number. */
  lemma WordMeaning(z: nat, ds: seq<int>, w: seq<Byte>)
    requires AllDigits(ds, 58) && Canonical(ds) && w == Ones(z) + Letters(ds)
    ensures InAlphabet(w) && Value(ds, 58) >= 0 && Meaning(w) == Zeroes(z) + Digits(Value(ds, 58), 256)
  {
    ValueBounds(ds, 58);
    forall i | 0 <= i < |w| ensures Digit(w[i]) != -1 { if i >= z { assert w[i] == Letter(ds[i - z]); } }
    LeadingIs(w, ONE, z);
    assert w[z..] == Letters(ds);
    assert DigitsOf(w[z..]) == ds;
  }

  lemma BytesBack(x: seq<Byte>, z: nat)
    requires z == Leading(x, 0)
    ensures Value(x[z..], 256) >= 0 && x == Zeroes(z) + Digits(Value(x[z..], 256), 256)
  {
    ValueDigits(x[z..], 256);
    assert x == Zeroes(z) + x[z..];
  }

  lemma PlainDecodes(w: seq<Byte>, limit: int)
    requires NoNul(w) && InAlphabet(w) && forall i :: 0 <= i < |w| ==> !IsSpace(w[i])
    ensures Decoded(w, limit) == if Fits(Meaning(w), limit) then Some(Meaning(w)) else None
  {
    WordWithoutSpaces(w);
    assert w[|w|..] == [];
  }

  /** Decoding an encoded byte string gives it back, under any limit that allows it. */
  lemma DecodeEncode(x: seq<Byte>, limit: int)
    requires limit >= |x|
    ensures Decoded(Encoded(x), limit) == Some(x)
  {
    var z := Leading(x, 0);
    BytesBack(x, z);
    EncodedIsPlain(x);
    PlainDecodes(Encoded(x), limit);
    EncodedMeans(x);
  }

  lemma EncodedMeans(x: seq<Byte>)
    ensures InAlphabet(Encoded(x)) && Meaning(Encoded(x)) == x
  {
    var z := Leading(x, 0);
    BytesBack(x, z);
    var v := Value(x[z..], 256);
    DigitsValue(v, 58);
    WordMeaning(z, Digits(v, 58), Encoded(x));
  }

  lemma LettersBack(w: seq<Byte>, z: nat)
    requires InAlphabet(w) && z == Leading(w, ONE)
    ensures AllDigits(DigitsOf(w[z..]), 58) && Canonical(DigitsOf(w[z..])) && w == Ones(z) + Letters(DigitsOf(w[z..]))
  {
    var ds := DigitsOf(w[z..]);
    forall i | 0 <= i < |ds| ensures 0 <= ds[i] < 58 && Letter(ds[i]) == w[z..][i] {
      assert ds[i] == Digit(w[z + i]);
      LetterOfDigit(w[z + i]);
    }
    if ds != [] { LetterOfDigit(w[z]); }
    assert w == Ones(z) + w[z..];
    assert Letters(ds) == w[z..];
  }

  lemma MeaningEncodes(w: seq<Byte>)
    requires InAlphabet(w)
    ensures AllDigits(Meaning(w), 256) && Encoded(Meaning(w)) == w
  {
    var z := Leading(w, ONE);
    LettersBack(w, z);
    var ds := DigitsOf(w[z..]);
    ValueBounds(ds, 58);
    DigitsValue(Value(ds, 58), 256);
    ValueDigits(ds, 58);
    ZeroesThenBytes(z, Value(ds, 58), Meaning(w));
  }

  lemma ZeroesThenBytes(z: nat, v: nat, x: seq<Byte>)
    requires x == Zeroes(z) + Digits(v, 256)
    ensures Leading(x, 0) == z && Value(x[z..], 256) == v
  {
    DigitsValue(v, 256);
    LeadingIs(x, 0, z);
    assert x[z..] == Digits(v, 256);
  }

  /** Encoding what a text decodes to gives the text back without the spaces around it. */
  lemma EncodeDecode(s: seq<Byte>, limit: int)
    requires Decoded(s, limit).Some?
    ensures AllDigits(Decoded(s, limit).value, 256) && Encoded(Decoded(s, limit).value) == Word(DropSpaces(s))
  {
    MeaningEncodes(Word(DropSpaces(s)));
  }

  // ----- the length limit

  lemma {:induction false} SpacesOnly(s: seq<Byte>)
    ensures DropSpaces(s) == [] ==> NoNul(s)
    ensures DropSpaces(s) != [] ==> !IsSpace(DropSpaces(s)[0])
  {
    if s != [] && IsSpace(s[0]) { SpacesOnly(s[1..]); }
  }

  lemma EmptyMeansNothing()
    ensures InAlphabet([]) && Meaning([]) == [] && Encoded([]) == []
  {
    assert DigitsOf([]) == [] && Zeroes(0) == [] && Ones(0) == [];
  }

  /** What is decoded is within the limit, unless the limit is negative and the text has nothing but spaces. */
  lemma LimitHoldsExactly(s: seq<Byte>, limit: int)
    ensures (Decoded(s, limit).Some? ==> |Decoded(s, limit).value| <= limit) <==> limit >= 0 || DropSpaces(s) != []
  {
    SpacesOnly(s);
    EmptyMeansNothing();
    if DropSpaces(s) == [] {
      assert Word([]) == [];
    } else if Decoded(s, limit).Some? {
      assert Word(DropSpaces(s)) != [];
      EncodeDecode(s, limit);
    }
  }

  lemma EmptyPassesNegativeLimit()
    ensures Decoded([], -1) == Some([])
  {
    EmptyMeansNothing();
  }

  // ----- the buffers are large enough

  lemma PowerChain(b: nat, j: nat, c: nat, i: nat, k: nat)
    requires b > 0 && c > 0 && Pow(b, j) <= Pow(c, i)
    ensures j * k >= 0 && i * k >= 0 && Pow(b, j * k) <= Pow(c, i * k)
  {
    Commute(j, k);
    Commute(i, k);
    var p, q := Pow(b, j), Pow(c, i);
    assert Pow(p, k) <= Pow(q, k) by { PowBase(p, q, k); }
    assert Pow(p, k) == Pow(b, j * k) by { PowPow(b, j, k); }
    assert Pow(q, k) == Pow(c, i * k) by { PowPow(c, i, k); }
  }

  lemma Raise(c: nat, m: nat, b: nat, k: nat, j: nat)
    requires b > 0 && c > 0 && j > 0 && Pow(c, m) < Pow(b, k)
    ensures j * m >= 0 && j * k >= 0 && Pow(c, j * m) < Pow(b, j * k)
  {
    PowBase(Pow(c, m), Pow(b, k), j);
    PowPow(c, m, j);
    PowPow(b, k, j);
    Commute(j, m);
    Commute(j, k);
  }

  /** If b^j <= c^i, then c^m has room for k digits in base b as soon as j*m >= i*k. */
  lemma RoomByRatio(b: nat, j: nat, c: nat, i: nat, k: nat, m: nat)
    requires b > 1 && c > 1 && j > 0 && Pow(b, j) <= Pow(c, i) && j * m >= i * k
    ensures Pow(b, k) <= Pow(c, m)
  {
    if Pow(c, m) < Pow(b, k) {
      Raise(c, m, b, k, j);
      PowerChain(b, j, c, i, k);
      PowOrder(c, j * m, i * k);
    }
  }

  lemma Commute(x: nat, y: nat)
    ensures x * y == y * x && x * y >= 0
  {
  }

  lemma Doubled(b: nat, n: nat, p: nat, p2: nat)
    requires Pow(b, n) == p && p * p == p2
    ensures Pow(b, n + n) == p2
  {
    PowAdd(b, n, n);
  }

  lemma Together(b: nat, m: nat, n: nat, p: nat, q: nat, r: nat)
    requires Pow(b, m) == p && Pow(b, n) == q && p * q == r
    ensures Pow(b, m + n) == r
  {
    PowAdd(b, m, n);
  }

  /** 256^8 <= 58^11, and 11/8 <= 1.38. */
  lemma EncodeCertificate(b: nat, c: nat)
    requires b == 256 && c == 58
    ensures Pow(b, 8) <= Pow(c, 11)
  {
    assert Pow(b, 1) == 256;
    Doubled(b, 1, 256, 65536);
    Doubled(b, 2, 65536, 4294967296);
    Doubled(b, 4, 4294967296, 18446744073709551616);
    assert Pow(c, 1) == 58;
    Doubled(c, 1, 58, 3364);
    Doubled(c, 2, 3364, 11316496);
    Doubled(c, 4, 11316496, 128063081718016);
    Together(c, 2, 1, 3364, 58, 195112);
    Together(c, 8, 3, 128063081718016, 195112, 24986644000165537792);
  }

  lemma Powers58(b: nat)
    requires b == 58
    ensures Pow(b, 71) ==
            159730386663078066345306447337161584696769904898410078913243029577507397293846405390982563136983769384625594118558891106107392
  {
    assert Pow(b, 1) == 58;
    Doubled(b, 1, 58, 3364);
    Doubled(b, 2, 3364, 11316496);
    Together(b, 4, 2, 11316496, 3364, 38068692544);
    Together(b, 6, 1, 38068692544, 58, 2207984167552);
    Doubled(b, 4, 11316496, 128063081718016);
    Doubled(b, 8, 128063081718016, 16400152899115243850138976256);
    Doubled(b, 16, 16400152899115243850138976256, 268965015114358137726910587140455987105619365599731777536);
    Doubled(b, 32,
            268965015114358137726910587140455987105619365599731777536,
            72342179355466901471258927612150153907721848234316445933056526044582001260898145151856420451025374266490194231296);
    Together(b, 64, 7,
             72342179355466901471258927612150153907721848234316445933056526044582001260898145151856420451025374266490194231296,
             2207984167552,
             159730386663078066345306447337161584696769904898410078913243029577507397293846405390982563136983769384625594118558891106107392);
  }

  lemma Powers256(b: nat)
    requires b == 256
    ensures Pow(b, 52) ==
            169230328010303641331690318856389386196071598838855992136870091590247882556495704531248437872567112920983350278405979725889536
  {
    assert Pow(b, 1) == 256;
    Doubled(b, 1, 256, 65536);
    Doubled(b, 2, 65536, 4294967296);
    Doubled(b, 4, 4294967296, 18446744073709551616);
    Doubled(b, 8, 18446744073709551616, 340282366920938463463374607431768211456);
    Doubled(b, 16,
            340282366920938463463374607431768211456,
            115792089237316195423570985008687907853269984665640564039457584007913129639936);
    Together(b, 32, 16,
             115792089237316195423570985008687907853269984665640564039457584007913129639936,
             340282366920938463463374607431768211456,
             39402006196394479212279040100143613805079739270465446667948293404245721771497210611414266254884915640806627990306816);
    Together(b, 48, 4,
             39402006196394479212279040100143613805079739270465446667948293404245721771497210611414266254884915640806627990306816,
             4294967296,
             169230328010303641331690318856389386196071598838855992136870091590247882556495704531248437872567112920983350278405979725889536);
  }

  /** 58^71 <= 256^52, and 52/71 <= 0.733. */
  lemma DecodeCertificate(b: nat, c: nat)
    requires b == 58 && c == 256
    ensures Pow(b, 71) <= Pow(c, 52)
  {
    Powers58(b);
    Powers256(c);
  }

  lemma EncodeSize(n: nat)
    ensures 8 * (n * 138 / 100 + 1) >= 11 * n
  {
  }

  lemma DecodeSize(n: nat)
    ensures 71 * (n * 733 / 1000 + 1) >= 52 * n
  {
  }

  /** The buffer of EncodeBase58. */
  lemma EncodeRoom(b: nat, c: nat, n: nat)
    requires b == 256 && c == 58
    ensures Pow(b, n) <= Pow(c, n * 138 / 100 + 1)
  {
    EncodeCertificate(b, c);
    EncodeSize(n);
    RoomByRatio(b, 8, c, 11, n, n * 138 / 100 + 1);
  }

  /** The buffer of DecodeBase58. */
  lemma DecodeRoom(b: nat, c: nat, n: nat)
    requires b == 58 && c == 256
    ensures Pow(b, n) <= Pow(c, n * 733 / 1000 + 1)
  {
    DecodeCertificate(b, c);
    DecodeSize(n);
    RoomByRatio(b, 71, c, 52, n, n * 733 / 1000 + 1);
  }

  // ----- base conversion in place

  /** The digits of a buffer number: zeroes, then `length` digits without a leading zero. */
  ghost predicate Holds(s: seq<int>, base: nat, length: nat) {
    && AllDigits(s, base) && length <= |s|
    && (forall i :: 0 <= i < |s| - length ==> s[i] == 0) && (length > 0 ==> s[|s| - length] != 0)
  }

  lemma {:induction false} ValuePrepend(d: int, s: seq<int>, base: nat)
    ensures Value([d] + s, base) == d * Pow(base, |s|) + Value(s, base)
  {
    if s == [] {
      assert ([d] + s)[..0] == [] && [d] + s == [d];
    } else {
      var l := |s| - 1;
      ValuePrepend(d, s[..l], base);
      assert ([d] + s)[..l + 1] == [d] + s[..l];
      PlaceShift(d, Pow(base, l), Value(s[..l], base), base, s[l]);
    }
  }

  lemma PlaceShift(d: int, p: int, v: int, base: int, x: int)
    ensures (d * p + v) * base + x == d * (base * p) + (v * base + x)
  {
  }

  /** One step of the carry loop, on values: `low` digits are done. */
  lemma CarryStep(low: int, low0: int, carry: int, mul: int, digit: int, p: int, base: int, d0: int, d: int,
                  carry': int)
    requires low + carry * p == low0 * mul + digit && carry + mul * d0 == carry' * base + d
    ensures (d * p + low) + carry' * (base * p) == (d0 * p + low0) * mul + digit
  {
    assert (carry + mul * d0) * p == (carry' * base + d) * p;
  }

  /** After `i` digits: what is done, what is still to be carried.  Kept closed; see `Opened`. */
  ghost predicate Carried(was: seq<int>, now: seq<int>, base: nat, mul: nat, digit: nat, i: nat, carry: nat) {
    forall k: int :: Key(1, k) ==> Balanced(was, now, base, mul, digit, i, carry)
  }

  ghost predicate Balanced(was: seq<int>, now: seq<int>, base: nat, mul: nat, digit: nat, i: nat, carry: nat) {
    && |now| == |was| && i <= |was| && now[..|was| - i] == was[..|was| - i]
    && Value(now[|was| - i..], base) + carry * Pow(base, i) == Value(was[|was| - i..], base) * mul + digit
  }

  lemma Opened(was: seq<int>, now: seq<int>, base: nat, mul: nat, digit: nat, i: nat, carry: nat)
    requires Carried(was, now, base, mul, digit, i, carry)
    ensures Balanced(was, now, base, mul, digit, i, carry)
  {
    assert Key(1, 0);
  }

  lemma CarriedNext(was: seq<int>, now: seq<int>, base: nat, mul: nat, digit: nat, i: nat, carry: nat, now': seq<int>,
                    carry': nat)
    requires Carried(was, now, base, mul, digit, i, carry) && i < |was| == |now|
    requires var j := |was| - 1 - i;
             |now'| == |now| && now' == now[j := now'[j]] && carry + mul * now[j] == carry' * base + now'[j]
    ensures Carried(was, now', base, mul, digit, i + 1, carry')
  {
    Opened(was, now, base, mul, digit, i, carry);
    var n := |was|;
    var j := n - 1 - i;
    assert now[j] == now[..n - i][j] == was[..n - i][j] == was[j];
    assert now'[j..] == [now'[j]] + now[n - i..] && was[j..] == [was[j]] + was[n - i..];
    ValuePrepend(now'[j], now[n - i..], base);
    ValuePrepend(was[j], was[n - i..], base);
    CarryStep(Value(now[n - i..], base), Value(was[n - i..], base), carry, mul, digit, Pow(base, i), base, was[j],
              now'[j], carry');
    assert now'[..j] == now[..n - i][..j] == was[..n - i][..j] == was[..j];
  }

  /** "buf = buf * mul + digit", the inner loop of both directions; the final carry is zero. */
  method MulAdd(buf: array<int>, mul: nat, base: nat, digit: nat, length: nat) returns (newLength: nat)
    requires base > 1 && mul > 0 && Holds(buf[..], base, length)
    requires Value(buf[..], base) * mul + digit < Pow(base, buf.Length)
    modifies buf
    ensures Holds(buf[..], base, newLength) && Value(buf[..], base) == Value(old(buf[..]), base) * mul + digit
    ensures newLength >= length
  {
    ghost var was := buf[..];
    var n := buf.Length;
    var carry: nat := digit;
    var i: nat := 0;
    CarriedStart(was, base, mul, digit);
    while (carry != 0 || i < length) && i < n
      invariant i <= n && AllDigits(buf[..], base) && Carried(was, buf[..], base, mul, digit, i, carry)
      invariant forall k :: 0 <= k < n - i ==> buf[k] == was[k]
      invariant i > 0 && i >= length && carry == 0 ==> buf[n - i] != 0
      decreases n - i
    {
      ghost var before, carry0 := buf[..], carry;
      var j := n - 1 - i;
      TopStep(carry, mul, buf[j], base);
      carry := carry + mul * buf[j];
      buf[j] := carry % base;
      carry := carry / base;
      assert buf[..] == before[j := buf[j]];
      CarriedNext(was, before, base, mul, digit, i, carry0, buf[..], carry);
      i := i + 1;
    }
    NoCarryLeft(was, buf[..], base, mul, digit, length, i, carry);
    assert carry == 0;
    newLength := i;
  }

  lemma CarriedStart(was: seq<int>, base: nat, mul: nat, digit: nat)
    ensures Carried(was, was, base, mul, digit, 0, digit)
  {
    assert was[|was|..] == [];
  }

  lemma TopStep(carry: nat, mul: nat, d0: nat, base: nat)
    requires base > 1 && mul > 0
    ensures var t := carry + mul * d0;
            && t >= 0 && 0 <= t % base < base && t / base >= 0 && t == (t / base) * base + t % base
            && (carry > 0 || d0 > 0 ==> t > 0) && (t / base == 0 ==> t % base == t)
  {
    Commute(mul, d0);
    if d0 > 0 { ProductGrows(1, mul, d0, d0); }
  }

  lemma CarryVanishes(v: nat, carry: nat, p: nat, t: nat)
    requires v + carry * p == t && t < p
    ensures carry == 0 && v == t
  {
    if carry > 0 { ProductGrows(1, carry, p, p); }
  }

  lemma FullCarry(was: seq<int>, now: seq<int>, base: nat, mul: nat, digit: nat, carry: nat)
    requires base > 1 && AllDigits(was, base) && AllDigits(now, base)
    requires Balanced(was, now, base, mul, digit, |was|, carry)
    requires Value(was, base) * mul + digit < Pow(base, |was|)
    ensures carry == 0 && Value(now, base) == Value(was, base) * mul + digit
  {
    ValueBounds(now, base);
    ValueBounds(was, base);
    assert now[0..] == now && was[0..] == was;
    var v := Value(was, base);
    Commute(v, mul);
    CarryVanishes(Value(now, base), carry, Pow(base, |was|), v * mul + digit);
  }

  lemma ShortCarry(was: seq<int>, now: seq<int>, base: nat, mul: nat, digit: nat, i: nat)
    requires Balanced(was, now, base, mul, digit, i, 0) && forall k :: 0 <= k < |was| - i ==> now[k] == 0 && was[k] == 0
    ensures Value(now, base) == Value(was, base) * mul + digit
  {
    LeadingZeroes(was, |was| - i, base);
    LeadingZeroes(now, |was| - i, base);
    var p := Pow(base, i);
    assert 0 * p == 0;
  }

  lemma NoCarryLeft(was: seq<int>, now: seq<int>, base: nat, mul: nat, digit: nat, length: nat, i: nat, carry: nat)
    requires base > 1 && Holds(was, base, length) && AllDigits(now, base) && |now| == |was| && i <= |was|
    requires Carried(was, now, base, mul, digit, i, carry) && forall k :: 0 <= k < |was| - i ==> now[k] == was[k]
    requires Value(was, base) * mul + digit < Pow(base, |was|)
    requires (carry == 0 && i >= length) || i == |was|
    ensures carry == 0 && i >= length && Value(now, base) == Value(was, base) * mul + digit
    ensures forall k :: 0 <= k < |was| - i ==> now[k] == 0
  {
    Opened(was, now, base, mul, digit, i, carry);
    if i == |was| {
      FullCarry(was, now, base, mul, digit, carry);
    } else {
      ShortCarry(was, now, base, mul, digit, i);
    }
  }

  // ----- EncodeBase58 and DecodeBase58

  /** The next digit still fits into a buffer that has room for the whole number. */
  lemma NextFits(ds: seq<int>, k: nat, mul: nat, base: nat, size: nat)
    requires k < |ds| && AllDigits(ds, mul) && mul > 0 && Pow(mul, |ds|) <= Pow(base, size)
    ensures Value(ds[..k], mul) * mul + ds[k] == Value(ds[..k + 1], mul) < Pow(base, size)
  {
    assert ds[..k + 1] == ds[..k] + [ds[k]];
    ValueAppend(ds[..k], ds[k], mul);
    ValueBounds(ds[..k + 1], mul);
    PowGrows(mul, k + 1, |ds|);
  }

  lemma HeldDigits(s: seq<int>, base: nat, length: nat)
    requires base > 1 && Holds(s, base, length)
    ensures Value(s, base) >= 0 && s[|s| - length..] == Digits(Value(s, base), base)
  {
    LeadingZeroes(s, |s| - length, base);
    ValueDigits(s[|s| - length..], base);
  }

  lemma EmptyBuffer(s: seq<int>, base: nat)
    requires base > 1 && forall i :: 0 <= i < |s| ==> s[i] == 0
    ensures Holds(s, base, 0) && Value(s, base) == 0
  {
    LeadingZeroes(s, |s|, base);
    assert s[|s|..] == [];
  }

  /** Converts a number from base `mul` to base `base`, digit by digit. */
  method Convert(ds: seq<int>, mul: nat, base: nat, size: nat) returns (r: seq<int>)
    requires base > 1 && mul > 0 && AllDigits(ds, mul) && Pow(mul, |ds|) <= Pow(base, size)
    ensures Value(ds, mul) >= 0 && r == Digits(Value(ds, mul), base)
  {
    var buf := new int[size](_ => 0);
    var length := 0;
    EmptyBuffer(buf[..], base);
    for k := 0 to |ds|
      invariant Holds(buf[..], base, length) && Value(buf[..], base) == Value(ds[..k], mul)
    {
      NextFits(ds, k, mul, base, size);
      length := MulAdd(buf, mul, base, ds[k], length);
    }
    assert ds[..|ds|] == ds;
    HeldDigits(buf[..], base, length);
    var it := SkipZeroes(buf[..], size - length);
    r := buf[it..];
  }

  method SkipZeroes(s: seq<int>, start: nat) returns (it: nat)
    requires start <= |s|
    ensures start <= it <= |s| && (forall i :: start <= i < it ==> s[i] == 0) && (it < |s| ==> s[it] != 0)
  {
    it := start;
    while it < |s| && s[it] == 0
      invariant start <= it <= |s| && forall i :: start <= i < it ==> s[i] == 0
    {
      it := it + 1;
    }
  }

  lemma EncodedIs(x: seq<Byte>, z: nat, ds: seq<int>)
    requires z == Leading(x, 0) && Value(x[z..], 256) >= 0 && ds == Digits(Value(x[z..], 256), 58)
    ensures AllDigits(ds, 58) && Encoded(x) == Ones(z) + Letters(ds)
  {
    DigitsValue(Value(x[z..], 256), 58);
  }

  method Spell(zeroes: nat, ds: seq<int>) returns (str: seq<Byte>)
    requires AllDigits(ds, 58)
    ensures str == Ones(zeroes) + Letters(ds)
  {
    str := Ones(zeroes);
    for i := 0 to |ds|
      invariant str == Ones(zeroes) + Letters(ds)[..i]
    {
      str := str + [Letter(ds[i])];
    }
  }

  method Encode(input: seq<Byte>) returns (str: seq<Byte>)
    ensures str == Encoded(input)
  {
    var zeroes := 0;
    while zeroes < |input| && input[zeroes] == 0
      invariant zeroes <= |input| && forall i :: 0 <= i < zeroes ==> input[i] == 0
    {
      zeroes := zeroes + 1;
    }
    LeadingIs(input, 0, zeroes);
    var rest := input[zeroes..];
    EncodeRoom(256, 58, |rest|);
    var b58 := Convert(rest, 256, 58, |rest| * 138 / 100 + 1);
    EncodedIs(input, zeroes, b58);
    str := Spell(zeroes, b58);
  }

  // ----- reading a text

  lemma {:induction false} DropSpacesIs(s: seq<Byte>, p: nat)
    requires p <= |s| && (forall i :: 0 <= i < p ==> IsSpace(s[i])) && (p < |s| ==> !IsSpace(s[p]))
    ensures DropSpaces(s) == s[p..]
  {
    if p > 0 {
      DropSpacesIs(s[1..], p - 1);
      assert s[1..][p - 1..] == s[p..];
    }
  }

  lemma {:induction false} WordIs(s: seq<Byte>, n: nat)
    requires n <= |s| && (forall i :: 0 <= i < n ==> !IsSpace(s[i])) && (n < |s| ==> IsSpace(s[n]))
    ensures Word(s) == s[..n]
  {
    if n > 0 {
      WordIs(s[1..], n - 1);
      assert s[..n] == [s[0]] + s[1..][..n - 1];
    }
  }

  /** More digits, no fewer bytes. */
  lemma PrefixNotLonger(ds: seq<int>, k: nat, bytes: seq<int>)
    requires AllDigits(ds, 58) && k <= |ds| && AllDigits(bytes, 256) && Canonical(bytes)
    requires Value(bytes, 256) == Value(ds[..k], 58)
    ensures Value(ds, 58) >= 0 && |bytes| <= |Digits(Value(ds, 58), 256)|
  {
    PrefixSmaller(ds, k, 58);
    ValueBounds(ds, 58);
    var all := Digits(Value(ds, 58), 256);
    DigitsValue(Value(ds, 58), 256);
    ValueBounds(all, 256);
    CanonicalLength(bytes, 256, |all|);
  }

  lemma {:induction false} PrefixSmaller(ds: seq<int>, k: nat, b: nat)
    requires AllDigits(ds, b) && k <= |ds| && b > 0
    ensures 0 <= Value(ds[..k], b) <= Value(ds, b)
  {
    if k == |ds| {
      assert ds[..k] == ds;
      ValueBounds(ds, b);
    } else {
      var l := |ds| - 1;
      PrefixSmaller(ds[..l], k, b);
      assert ds[..l][..k] == ds[..k];
      ProductGrows(1, b, Value(ds[..l], b), Value(ds[..l], b));
    }
  }

  method SkipSpaces(s: seq<Byte>) returns (rest: seq<Byte>)
    ensures rest == DropSpaces(s)
  {
    var p := 0;
    while p < |s| && IsSpace(s[p])
      invariant p <= |s| && forall i :: 0 <= i < p ==> IsSpace(s[i])
    {
      p := p + 1;
    }
    DropSpacesIs(s, p);
    rest := s[p..];
  }

  /** Characters without a space among them belong to the word. */
  lemma {:induction false} InWord(rest: seq<Byte>, n: nat)
    requires n <= |rest| && forall i :: 0 <= i < n ==> !IsSpace(rest[i])
    ensures n <= |Word(rest)| && Word(rest)[..n] == rest[..n]
    ensures n < |Word(rest)| ==> n < |rest| && Word(rest)[n] == rest[n]
  {
    if n > 0 {
      InWord(rest[1..], n - 1);
      assert Word(rest) == [rest[0]] + Word(rest[1..]);
      assert rest[..n] == [rest[0]] + rest[1..][..n - 1];
    }
  }

  lemma NotFitting(rest: seq<Byte>, limit: int)
    requires InAlphabet(Word(rest)) ==> !Fits(Meaning(Word(rest)), limit)
    ensures Answers(rest, limit, None)
  {
  }

  lemma LongWord(w: seq<Byte>, z: nat, k: nat, bytes: seq<int>)
    requires InAlphabet(w) && z == Leading(w, ONE) && z + k <= |w|
    requires AllDigits(bytes, 256) && Canonical(bytes) && Value(bytes, 256) == Value(DigitsOf(w[z..])[..k], 58)
    ensures |Meaning(w)| >= z + |bytes|
  {
    PrefixNotLonger(DigitsOf(w[z..]), k, bytes);
  }

  lemma LeadingAtLeast(w: seq<Byte>, z: nat)
    requires z <= |w| && forall i :: 0 <= i < z ==> w[i] == ONE
    ensures z <= Leading(w, ONE)
  {
  }

  lemma TooManyOnes(rest: seq<Byte>, z: nat, limit: int)
    requires z <= |rest| && (forall i :: 0 <= i < z ==> rest[i] == ONE) && z > limit && z > 0
    ensures Answers(rest, limit, None)
  {
    InWord(rest, z);
    var w := Word(rest);
    forall i | 0 <= i < z ensures w[i] == ONE { assert w[..z][i] == rest[..z][i]; }
    LeadingAtLeast(w, z);
    if InAlphabet(w) { LongWord(w, Leading(w, ONE), 0, []); }
    NotFitting(rest, limit);
  }

  lemma InvalidCharacter(rest: seq<Byte>, n: nat, limit: int)
    requires n < |rest| && (forall i :: 0 <= i <= n ==> !IsSpace(rest[i])) && Digit(rest[n]) == -1
    ensures Answers(rest, limit, None)
  {
    InWord(rest, n + 1);
    assert Word(rest)[n] == Word(rest)[..n + 1][n] == rest[..n + 1][n] == rest[n];
  }

  lemma TooLong(rest: seq<Byte>, z: nat, k: nat, limit: int, bytes: seq<int>)
    requires z + k <= |rest| && (forall i :: 0 <= i < z + k ==> !IsSpace(rest[i])) && z == Leading(Word(rest), ONE)
    requires AllDigits(bytes, 256) && Canonical(bytes) && Value(bytes, 256) == Value(DigitsOf(rest[z..z + k]), 58)
    requires z + |bytes| > limit && bytes != []
    ensures Answers(rest, limit, None)
  {
    var w := Word(rest);
    assert z + k <= |w| && DigitsOf(rest[z..z + k]) == DigitsOf(w[z..])[..k] by {
      InWord(rest, z + k);
      assert rest[z..z + k] == rest[..z + k][z..] == w[..z + k][z..] == w[z..][..k];
    }
    if InAlphabet(w) { LongWord(w, z, k, bytes); }
    NotFitting(rest, limit);
  }

  /** The word has `n` characters, `z` of them leading ones; closed. */
  ghost predicate WordEnds(rest: seq<Byte>, z: nat, n: nat)
    requires z <= n <= |rest|
  {
    forall key: int :: Key(4, key) ==> Word(rest) == rest[..n] && InAlphabet(rest[..n]) && z == Leading(rest[..n], ONE)
  }

  /** The bytes of the digits from `z` to `n`; closed. */
  ghost predicate BytesOf(rest: seq<Byte>, z: nat, n: nat, bytes: seq<int>)
    requires z <= n <= |rest|
  {
    forall key: int :: Key(5, key) ==>
          Value(DigitsOf(rest[z..n]), 58) >= 0 && bytes == Digits(Value(DigitsOf(rest[z..n]), 58), 256)
  }

  lemma DecodedIs(rest: seq<Byte>, z: nat, n: nat, limit: int, bytes: seq<int>)
    requires z <= n <= |rest| && WordEnds(rest, z, n)
    requires BytesOf(rest, z, n, bytes) && Fits(Zeroes(z) + bytes, limit)
    ensures Answers(rest, limit, if DropSpaces(rest[n..]) == [] then Some(Zeroes(z) + bytes) else None)
  {
    assert Key(4, 0) && Key(5, 0);
    assert rest[..n][z..] == rest[z..n];
  }

  lemma DigitFits(pre: seq<int>, d: int, n: nat, size: nat)
    requires AllDigits(pre, 58) && 0 <= d < 58 && |pre| < n && Pow(58, n) <= Pow(256, size)
    ensures Value(pre + [d], 58) == Value(pre, 58) * 58 + d < Pow(256, size)
  {
    ValueAppend(pre, d, 58);
    ValueBounds(pre + [d], 58);
    PowGrows(58, |pre| + 1, n);
  }

  lemma OneMoreDigit(w: seq<Byte>, z: nat, k: nat)
    requires z + k < |w|
    ensures DigitsOf(w[z..z + k + 1]) == DigitsOf(w[z..z + k]) + [Digit(w[z + k])]
  {
  }

  /** The characters of the word after the ones, read into the buffer. */
  ghost predicate Reading(rest: seq<Byte>, z: nat, k: nat, buf: seq<int>, length: nat) {
    && z + k <= |rest| && (forall i :: z <= i < z + k ==> !IsSpace(rest[i]) && Digit(rest[i]) != -1)
    && Holds(buf, 256, length) && Value(buf, 256) == Value(DigitsOf(rest[z..z + k]), 58)
  }

  /** The right answer for a text whose leading spaces are gone; closed as well. */
  ghost predicate Answers(rest: seq<Byte>, limit: int, r: Option<seq<int>>) {
    forall key: int :: Key(3, key) ==> r == DecodedFrom(rest, limit)
  }

  /** `Reading`, kept closed. */
  ghost predicate ReadSoFar(rest: seq<Byte>, z: nat, k: nat, buf: seq<int>, length: nat) {
    forall key: int :: Key(2, key) ==> Reading(rest, z, k, buf, length)
  }

  lemma OpenReading(rest: seq<Byte>, z: nat, k: nat, buf: seq<int>, length: nat)
    requires ReadSoFar(rest, z, k, buf, length)
    ensures Reading(rest, z, k, buf, length)
  {
    assert Key(2, 0);
  }

  lemma NothingRead(rest: seq<Byte>, z: nat, buf: seq<int>)
    requires z <= |rest| && forall i :: 0 <= i < |buf| ==> buf[i] == 0
    ensures ReadSoFar(rest, z, 0, buf, 0)
  {
    EmptyBuffer(buf, 256);
    assert rest[z..z] == [];
  }

  method Decode(s: seq<Byte>, limit: int) returns (r: Option<seq<int>>)
    ensures r == Decoded(s, limit)
  {
    if !NoNul(s) { return None; }
    var rest := SkipSpaces(s);
    var zeroes := 0;
    while zeroes < |rest| && rest[zeroes] == ONE
      invariant zeroes <= |rest| && (forall i :: 0 <= i < zeroes ==> rest[i] == ONE) && (zeroes > 0 ==> zeroes <= limit)
    {
      zeroes := zeroes + 1;
      if zeroes > limit {
        TooManyOnes(rest, zeroes, limit);
        assert Key(3, 0);
        return None;
      }
    }
    r := DecodeRest(rest, zeroes, limit);
    assert Key(3, 0);
  }

  ghost predicate HasRoom(n: nat, size: nat) { forall key: int :: Key(6, key) ==> Pow(58, n) <= Pow(256, size) }

  lemma DigitReady(rest: seq<Byte>, z: nat, k: nat, buf: seq<int>, length: nat, carry: int)
    requires ReadSoFar(rest, z, k, buf, length) && z + k < |rest| && carry == Digit(rest[z + k]) != -1
    requires HasRoom(|rest| - z, |buf|)
    ensures Holds(buf, 256, length) && Value(buf, 256) * 58 + carry < Pow(256, |buf|)
  {
    RoomIs(|rest| - z, |buf|);
    OpenReading(rest, z, k, buf, length);
    DigitFits(DigitsOf(rest[z..z + k]), carry, |rest| - z, |buf|);
  }

  lemma RoomIs(n: nat, size: nat)
    requires HasRoom(n, size)
    ensures Pow(58, n) <= Pow(256, size)
  {
    assert Key(6, 0);
  }

  lemma DigitDone(rest: seq<Byte>, z: nat, k: nat, buf: seq<int>, length: nat, carry: int, buf': seq<int>, length': nat)
    requires ReadSoFar(rest, z, k, buf, length) && z + k < |rest| && carry == Digit(rest[z + k]) != -1
    requires !IsSpace(rest[z + k])
    requires Holds(buf', 256, length') && Value(buf', 256) == Value(buf, 256) * 58 + carry
    ensures ReadSoFar(rest, z, k + 1, buf', length')
  {
    OpenReading(rest, z, k, buf, length);
    ValueAppend(DigitsOf(rest[z..z + k]), carry, 58);
    OneMoreDigit(rest, z, k);
  }

  method ReadDigit(buf: array<int>, rest: seq<Byte>, z: nat, k: nat, length: nat, carry: int) returns (newLength: nat)
    requires ReadSoFar(rest, z, k, buf[..], length) && z + k < |rest| && !IsSpace(rest[z + k])
    requires carry == Digit(rest[z + k]) != -1
    requires HasRoom(|rest| - z, buf.Length)
    modifies buf
    ensures ReadSoFar(rest, z, k + 1, buf[..], newLength) && newLength <= buf.Length && newLength >= length
  {
    ghost var was := buf[..];
    DigitReady(rest, z, k, was, length, carry);
    newLength := MulAdd(buf, 58, 256, carry, length);
    DigitDone(rest, z, k, was, length, carry, buf[..], newLength);
  }

  method DecodeRest(rest: seq<Byte>, zeroes: nat, limit: int) returns (r: Option<seq<int>>)
    requires zeroes <= |rest| && (zeroes > 0 ==> zeroes <= limit)
    requires (forall i :: 0 <= i < zeroes ==> rest[i] == ONE) && (zeroes < |rest| ==> rest[zeroes] != ONE)
    ensures Answers(rest, limit, r)
  {
    var length: nat := 0;
    var size := (|rest| - zeroes) * 733 / 1000 + 1;
    assert HasRoom(|rest| - zeroes, size) by { DecodeRoom(58, 256, |rest| - zeroes); }
    var b256 := new int[size](_ => 0);
    NothingRead(rest, zeroes, b256[..]);
    var k: nat := 0;
    while zeroes + k < |rest| && !IsSpace(rest[zeroes + k])
      invariant ReadSoFar(rest, zeroes, k, b256[..], length) && length <= size
      invariant zeroes + k <= |rest| && forall i :: 0 <= i < zeroes + k ==> !IsSpace(rest[i])
      invariant if k == 0 then length == 0 else zeroes + length <= limit
    {
      var carry := Digit(rest[zeroes + k]);
      if carry == -1 {
        InvalidCharacter(rest, zeroes + k, limit);
        return None;
      }
      length := ReadDigit(b256, rest, zeroes, k, length, carry);
      k := k + 1;
      if length + zeroes > limit {
        TooLongHere(rest, zeroes, k, limit, b256[..], length);
        return None;
      }
    }
    r := Finish(rest, zeroes, k, limit, b256[..], length);
  }

  /** Trailing spaces, the end of the text, and the result. */
  method Finish(rest: seq<Byte>, z: nat, k: nat, limit: int, buf: seq<int>, length: nat) returns (r: Option<seq<int>>)
    requires ReadSoFar(rest, z, k, buf, length) && length <= |buf| && z + k <= |rest|
    requires (z + k < |rest| ==> IsSpace(rest[z + k]))
    requires (forall i :: 0 <= i < z ==> rest[i] == ONE) && (z < |rest| ==> rest[z] != ONE)
    requires (k == 0 ==> length == 0) && if length == 0 then z > 0 ==> z <= limit else z + length <= limit
    ensures Answers(rest, limit, r)
  {
    var bytes := buf[|buf| - length..];
    WholeWord(rest, z, k, buf, length);
    BytesRead(rest, z, k, buf, length, bytes);
    FitsNow(z, bytes, limit);
    DecodedIs(rest, z, z + k, limit, bytes);
    var trailing := SkipSpaces(rest[z + k..]);
    if trailing != [] { return None; }
    r := Some(Zeroes(z) + bytes);
  }

  lemma FitsNow(z: nat, bytes: seq<int>, limit: int)
    requires if bytes == [] then z > 0 ==> z <= limit else z + |bytes| <= limit
    ensures Fits(Zeroes(z) + bytes, limit)
  {
  }

  lemma BytesRead(rest: seq<Byte>, z: nat, k: nat, buf: seq<int>, length: nat, bytes: seq<int>)
    requires ReadSoFar(rest, z, k, buf, length) && length <= |buf| && z + k <= |rest| && bytes == buf[|buf| - length..]
    ensures BytesOf(rest, z, z + k, bytes)
  {
    OpenReading(rest, z, k, buf, length);
    HeldDigits(buf, 256, length);
  }

  lemma WholeWord(rest: seq<Byte>, z: nat, k: nat, buf: seq<int>, length: nat)
    requires ReadSoFar(rest, z, k, buf, length) && z + k <= |rest| && (z + k < |rest| ==> IsSpace(rest[z + k]))
    requires (forall i :: 0 <= i < z ==> rest[i] == ONE) && (z < |rest| ==> rest[z] != ONE)
    ensures WordEnds(rest, z, z + k)
  {
    OpenReading(rest, z, k, buf, length);
    WordIs(rest, z + k);
    LeadingOfWord(rest, z);
  }

  lemma LeadingOfWord(rest: seq<Byte>, z: nat)
    requires z <= |rest| && (forall i :: 0 <= i < z ==> rest[i] == ONE) && (z < |rest| ==> rest[z] != ONE)
    ensures z == Leading(Word(rest), ONE)
  {
    InWord(rest, z);
    forall i | 0 <= i < z ensures Word(rest)[i] == ONE { assert Word(rest)[..z][i] == rest[..z][i]; }
    LeadingIs(Word(rest), ONE, z);
  }

  lemma TooLongHere(rest: seq<Byte>, z: nat, k: nat, limit: int, buf: seq<int>, length: nat)
    requires ReadSoFar(rest, z, k, buf, length) && k > 0 && z < |rest|
    requires (forall i :: 0 <= i < z ==> rest[i] == ONE) && z + length > limit && rest[z] != ONE
    ensures Answers(rest, limit, None)
  {
    OpenReading(rest, z, k, buf, length);
    LeadingOfWord(rest, z);
    HeldDigits(buf, 256, length);
    SomethingRead(rest, z, k);
    DigitsValue(Value(buf, 256), 256);
    TooLong(rest, z, k, limit, buf[|buf| - length..]);
  }

  /** The first character after the ones is not a one, so the number is not zero. */
  lemma SomethingRead(rest: seq<Byte>, z: nat, k: nat)
    requires 0 < k && z + k <= |rest| && (forall i :: z <= i < z + k ==> Digit(rest[i]) != -1) && rest[z] != ONE
    ensures Value(DigitsOf(rest[z..z + k]), 58) > 0
  {
    var ds := DigitsOf(rest[z..z + k]);
    assert ds[0] == Digit(rest[z]);
    if ds[0] == 0 { LetterOfDigit(rest[z]); }
    ValueBounds(ds, 58);
  }
}
