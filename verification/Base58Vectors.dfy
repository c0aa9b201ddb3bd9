/** The Base58 alphabet as text, and known encodings. */
module Base58Vectors {
  import opened Common
  import opened Radix
  import opened Base58

  const FIRST := "123456789" + "ABCDEFGH" + "JKLMN"
  const SECOND := "PQRSTUVWXYZ" + "abcdefghijk" + "mnopqrstuvwxyz"
  const ALPHABET := FIRST + SECOND

  lemma FirstLetters(d: int)
    requires 0 <= d < 22
    ensures Letter(d) == FIRST[d] as int
  {
  }

  lemma SecondLetters(d: int)
    requires 22 <= d < 58
    ensures Letter(d) == SECOND[d - 22] as int
  {
  }

  /** The letters stand in the order of the alphabet. */
  lemma LetterIs(d: int)
    requires 0 <= d < 58
    ensures |ALPHABET| == 58 && Letter(d) == ALPHABET[d] as int
  {
    assert |FIRST| == 22 && |SECOND| == 36;
    if d < 22 { FirstLetters(d); } else { SecondLetters(d); }
  }

  lemma DigitsAre(v: nat, b: nat, ds: seq<int>)
    requires b > 1 && AllDigits(ds, b) && Canonical(ds) && Value(ds, b) == v
    ensures Digits(v, b) == ds
  {
    ValueDigits(ds, b);
  }

  /** The text of a number that fits no leading zero. */
  lemma KnownText(x: seq<Byte>, ds: seq<int>, v: nat)
    requires x != [] && x[0] != 0 && Value(x, 256) == v
    requires AllDigits(ds, 58) && Canonical(ds) && Value(ds, 58) == v
    ensures Encoded(x) == Letters(ds)
  {
    assert Leading(x, 0) == 0 && x[0..] == x && Ones(0) == [];
    DigitsAre(v, 58, ds);
  }

  lemma Values4(a: int, b: int, c: int, d: int, base: nat)
    ensures Value([a, b, c, d], base) == ((a * base + b) * base + c) * base + d
  {
    assert [a, b, c, d][..3] == [a, b, c] && [a, b, c][..2] == [a, b] && [a, b][..1] == [a] && [a][..0] == [];
    assert Value([], base) == 0;
    assert Value([a], base) == a;
    assert Value([a, b], base) == a * base + b;
    assert Value([a, b, c], base) == (a * base + b) * base + c;
  }

  lemma Values6(a: int, b: int, c: int, d: int, e: int, f: int, base: nat)
    ensures Value([a, b, c, d, e, f], base) == ((((a * base + b) * base + c) * base + d) * base + e) * base + f
  {
    assert [a, b, c, d, e, f][..5] == [a, b, c, d, e] && [a, b, c, d, e][..4] == [a, b, c, d];
    Values4(a, b, c, d, base);
    assert Value([a, b, c, d, e], base) == Value([a, b, c, d], base) * base + e;
  }

  function Chars(text: string): (r: seq<int>)
    ensures |r| == |text| && forall i :: 0 <= i < |text| ==> r[i] == text[i] as int
  {
    seq(|text|, i requires 0 <= i < |text| => text[i] as int)
  }

  lemma KnownShort()
    ensures Encoded([0x61]) == Chars("2g") && Decoded(Chars("2g"), 1) == Some([0x61])
  {
    assert Value([], 256) == 0 && [0x61][..0] == [] && Value([0x61], 256) == 97;
    assert [1, 39][..1] == [1] && [1][..0] == [] && Value([1], 58) == 1 && Value([1, 39], 58) == 97;
    KnownText([0x61], [1, 39], 97);
    assert Letters([1, 39]) == Chars("2g");
    DecodeEncode([0x61], 1);
  }

  lemma KnownLong()
    ensures Encoded([0x57, 0x2e, 0x47, 0x94]) == Chars("3EFU7m")
    ensures Decoded(Chars("3EFU7m"), 4) == Some([0x57, 0x2e, 0x47, 0x94])
  {
    var x: seq<Byte>, ds := [0x57, 0x2e, 0x47, 0x94], [2, 13, 14, 27, 6, 44];
    Values4(0x57, 0x2e, 0x47, 0x94, 256);
    Values6(2, 13, 14, 27, 6, 44, 58);
    KnownText(x, ds, 0x572e4794);
    assert Letters(ds) == Chars("3EFU7m");
    DecodeEncode(x, 4);
  }
}
