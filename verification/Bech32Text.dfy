module Bech32Text {

  /** Bech32 and Bech32m strings.  Characters are their byte values. */

  import opened Common
  import opened Closed
  import opened Bech32
  import Bech32Errors

  const SEPARATOR := 49
  const CHECKSUM_SIZE := 6

  // ----- characters

  /** CHARSET. */
  function Letter(d: nat): nat {
    match d
    case 0 => 113
    case 1 => 112
    case 2 => 122
    case 3 => 114
    case 4 => 121
    case 5 => 57
    case 6 => 120
    case 7 => 56
    case 8 => 103
    case 9 => 102
    case 10 => 50
    case 11 => 116
    case 12 => 118
    case 13 => 100
    case 14 => 119
    case 15 => 48
    case 16 => 115
    case 17 => 51
    case 18 => 106
    case 19 => 110
    case 20 => 53
    case 21 => 52
    case 22 => 107
    case 23 => 104
    case 24 => 99
    case 25 => 101
    case 26 => 54
    case 27 => 109
    case 28 => 117
    case 29 => 97
    case 30 => 55
    case _ => 108
  }

  const CHARSET := "qpzry9x8gf2tvdw0s3jn54khce6mua7l"

  lemma LetterIs(d: nat)
    requires d < 32
    ensures Letter(d) == CHARSET[d] as int
  {
  }

  function LowerCase(ch: nat): nat { if IsUpper(ch) then ch + 32 else ch }

  predicate IsLower(ch: nat) { 97 <= ch <= 122 }
  predicate IsUpper(ch: nat) { 65 <= ch <= 90 }

  function RevLower(ch: nat): int {
    match ch
    case 113 => 0
    case 112 => 1
    case 122 => 2
    case 114 => 3
    case 121 => 4
    case 57 => 5
    case 120 => 6
    case 56 => 7
    case 103 => 8
    case 102 => 9
    case 50 => 10
    case 116 => 11
    case 118 => 12
    case 100 => 13
    case 119 => 14
    case 48 => 15
    case 115 => 16
    case 51 => 17
    case 106 => 18
    case 110 => 19
    case 53 => 20
    case 52 => 21
    case 107 => 22
    case 104 => 23
    case 99 => 24
    case 101 => 25
    case 54 => 26
    case 109 => 27
    case 117 => 28
    case 97 => 29
    case 55 => 30
    case 108 => 31
    case _ => -1
  }

  /** CHARSET_REV: upper and lower case are read alike. */
  function Rev(ch: nat): int { RevLower(LowerCase(ch)) }

  lemma LetterReads(d: nat)
    requires d < 32
    ensures Rev(Letter(d)) == d && !IsUpper(Letter(d)) && 33 <= Letter(d) <= 126 && Letter(d) != SEPARATOR
  {
  }

  lemma RevInRange(ch: nat)
    ensures -1 <= Rev(ch) < 32
  {
  }

  /** Printable characters, not in both cases. */
  ghost predicate CharsOk(s: seq<nat>) {
    && (forall i :: 0 <= i < |s| ==> 33 <= s[i] <= 126)
    && !(HasLower(s) && HasUpper(s))
  }

  ghost predicate HasLower(s: seq<nat>) { exists i :: 0 <= i < |s| && IsLower(s[i]) }
  ghost predicate HasUpper(s: seq<nat>) { exists i :: 0 <= i < |s| && IsUpper(s[i]) }

  lemma CharsOkNext(s: seq<nat>, ch: nat)
    ensures HasLower(s + [ch]) <==> HasLower(s) || IsLower(ch)
    ensures HasUpper(s + [ch]) <==> HasUpper(s) || IsUpper(ch)
    ensures CharsOk(s + [ch]) <==>
              CharsOk(s) && 33 <= ch <= 126 && !(IsLower(ch) && HasUpper(s)) && !(IsUpper(ch) && HasLower(s))
  {
    var t := s + [ch];
    assert t[|s|] == ch;
    if HasLower(s) {
      var i :| 0 <= i < |s| && IsLower(s[i]);
      assert IsLower(t[i]);
    }
    if HasUpper(s) {
      var i :| 0 <= i < |s| && IsUpper(s[i]);
      assert IsUpper(t[i]);
    }
    if CharsOk(t) {
      forall i | 0 <= i < |s| ensures 33 <= s[i] <= 126 { assert t[i] == s[i]; }
    }
  }

  method CheckCharacters(s: seq<nat>) returns (errors: seq<nat>)
    ensures errors == [] <==> CharsOk(s)
  {
    errors := [];
    var lower, upper := false, false;
    for i := 0 to |s|
      invariant errors == [] <==> CharsOk(s[..i])
      invariant errors == [] ==> (lower <==> HasLower(s[..i])) && (upper <==> HasUpper(s[..i]))
    {
      assert s[..i + 1] == s[..i] + [s[i]];
      CharsOkNext(s[..i], s[i]);
      var ch := s[i];
      if IsLower(ch) {
        if upper { errors := errors + [i]; } else { lower := true; }
      } else if IsUpper(ch) {
        if lower { errors := errors + [i]; } else { upper := true; }
      } else if ch < 33 || ch > 126 {
        errors := errors + [i];
      }
    }
    assert s[..|s|] == s;
  }

  // ----- what encoding and decoding compute

  ghost function Letters(vs: seq<nat>): (r: seq<nat>)
    ensures |r| == |vs| && forall i :: 0 <= i < |vs| ==> r[i] == Letter(vs[i])
  {
    seq(|vs|, i requires 0 <= i < |vs| => Letter(vs[i]))
  }

  ghost function Text(hrp: seq<nat>, vs: seq<nat>): seq<nat> { hrp + [SEPARATOR] + Letters(vs) }

  ghost function Encoded(e: Encoding, hrp: seq<nat>, values: seq<nat>): seq<nat> {
    Text(hrp, values + Checksum(e, hrp, values))
  }

  /** The last separator, or -1. */
  function LastSeparator(s: seq<nat>): (p: int)
    ensures -1 <= p < |s| && (p >= 0 ==> s[p] == SEPARATOR) && forall i :: p < i < |s| ==> s[i] != SEPARATOR
  {
    if s == [] then -1 else if s[|s| - 1] == SEPARATOR then |s| - 1 else LastSeparator(s[..|s| - 1])
  }

  ghost predicate Readable(data: seq<nat>) { forall i :: 0 <= i < |data| ==> Rev(data[i]) != -1 }

  ghost function ReadValues(data: seq<nat>): (r: seq<nat>)
    requires Readable(data)
    ensures |r| == |data| && forall i :: 0 <= i < |data| ==> r[i] == Rev(data[i])
  {
    seq(|data|, i requires 0 <= i < |data| => RevInRange(data[i]); Rev(data[i]))
  }

  ghost function Lowered(s: seq<nat>): (r: seq<nat>)
    ensures |r| == |s| && forall i :: 0 <= i < |s| ==> r[i] == LowerCase(s[i])
  {
    seq(|s|, i requires 0 <= i < |s| => LowerCase(s[i]))
  }

  datatype Result = Result(e: Encoding, hrp: seq<nat>, values: seq<nat>)

  type Verifier = (seq<nat>, seq<nat>) -> Option<Encoding>

  /** Decoding, for any way of checking the checksum. */
  ghost function DecodedBy(verify: Verifier, s: seq<nat>, limit: nat): Option<Result> {
    var p := LastSeparator(s);
    if !CharsOk(s) || |s| > limit || p <= 0 || p + CHECKSUM_SIZE >= |s| || !Readable(s[p + 1..]) then None
    else
      var hrp, values := Lowered(s[..p]), ReadValues(s[p + 1..]);
      match verify(hrp, values)
      case None => None
      case Some(e) => Some(Result(e, hrp, values[..|values| - CHECKSUM_SIZE]))
  }

  ghost function Decoded(s: seq<nat>, limit: nat): Option<Result> { DecodedBy(Verified, s, limit) }

  method Spell(vs: seq<nat>) returns (s: seq<nat>)
    ensures s == Letters(vs)
  {
    s := [];
    for i := 0 to |vs|
      invariant s == Letters(vs)[..i]
    {
      s := s + [Letter(vs[i])];
    }
  }

  lemma TextSplit(hrp: seq<nat>, us: seq<nat>, vs: seq<nat>)
    ensures Text(hrp, us + vs) == hrp + [SEPARATOR] + Letters(us) + Letters(vs)
  {
    assert Letters(us + vs) == Letters(us) + Letters(vs);
  }

  method Encode(e: Encoding, hrp: seq<nat>, values: seq<nat>) returns (s: seq<nat>)
    requires (forall i :: 0 <= i < |hrp| ==> !IsUpper(hrp[i])) && forall i :: 0 <= i < |values| ==> values[i] < 32
    ensures s == Encoded(e, hrp, values)
  {
    s := hrp;
    s := s + [SEPARATOR];
    var letters := Spell(values);
    s := s + letters;
    var sum := CreateChecksum(e, hrp, values);
    letters := Spell(sum);
    s := s + letters;
    TextSplit(hrp, values, sum);
  }

  method ReadData(data: seq<nat>) returns (r: Option<seq<nat>>)
    ensures r == if Readable(data) then Some(ReadValues(data)) else None
  {
    var values: seq<nat> := [];
    for i := 0 to |data|
      invariant |values| == i && forall k :: 0 <= k < i ==> Rev(data[k]) != -1 && values[k] == Rev(data[k])
    {
      RevInRange(data[i]);
      var rev := Rev(data[i]);
      if rev == -1 { return None; }
      values := values + [rev];
    }
    assert values == ReadValues(data);
    r := Some(values);
  }

  method Lower(s: seq<nat>) returns (r: seq<nat>)
    ensures r == Lowered(s)
  {
    r := [];
    for i := 0 to |s|
      invariant r == Lowered(s)[..i]
    {
      r := r + [LowerCase(s[i])];
    }
  }

  /** The right answer, kept closed. */
  ghost predicate Answers(s: seq<nat>, limit: nat, r: Option<Result>) {
    forall key: int :: Key(3, key) ==> r == Decoded(s, limit)
  }

  ghost predicate Checks(hrp: seq<nat>, values: seq<nat>, r: Option<Encoding>) {
    forall key: int :: Key(4, key) ==> r == Verified(hrp, values)
  }

  /** Everything but the checksum is in order. */
  ghost predicate WellFormed(s: seq<nat>, limit: nat) {
    var p := LastSeparator(s);
    CharsOk(s) && |s| <= limit && 0 < p && p + CHECKSUM_SIZE < |s| && Readable(s[p + 1..])
  }

  lemma NotWellFormed(s: seq<nat>, limit: nat)
    requires !WellFormed(s, limit)
    ensures Answers(s, limit, None)
  {
  }

  lemma ConcludeBy(verify: Verifier, s: seq<nat>, limit: nat, hrp: seq<nat>, values: seq<nat>, result: Option<Encoding>)
    requires WellFormed(s, limit) && verify(hrp, values) == result && Split(s, hrp, values)
    ensures DecodedBy(verify, s, limit) == Outcome(hrp, values, result)
  {
  }

  ghost predicate Split(s: seq<nat>, hrp: seq<nat>, values: seq<nat>) {
    var p := LastSeparator(s);
    p >= 0 && p + CHECKSUM_SIZE < |s| && Readable(s[p + 1..]) && hrp == Lowered(s[..p]) &&
    values == ReadValues(s[p + 1..])
  }

  function Outcome(hrp: seq<nat>, values: seq<nat>, result: Option<Encoding>): Option<Result> {
    if result.None? || |values| < CHECKSUM_SIZE then None
    else Some(Result(result.value, hrp, values[..|values| - CHECKSUM_SIZE]))
  }

  lemma Conclude(s: seq<nat>, limit: nat, hrp: seq<nat>, values: seq<nat>, result: Option<Encoding>)
    requires WellFormed(s, limit) && Checks(hrp, values, result) && Split(s, hrp, values)
    ensures Answers(s, limit, Outcome(hrp, values, result))
  {
    assert Key(4, 0);
    ConcludeBy(Verified, s, limit, hrp, values, result);
  }

  method Verify(hrp: seq<nat>, values: seq<nat>) returns (r: Option<Encoding>)
    ensures Checks(hrp, values, r)
  {
    r := VerifyChecksum(hrp, values);
  }

  /** The checks before the checksum, and the two parts. */
  method SplitText(s: seq<nat>, limit: nat) returns (r: Option<(seq<nat>, seq<nat>)>)
    ensures r.Some? <==> WellFormed(s, limit)
    ensures r.Some? ==> Split(s, r.value.0, r.value.1)
  {
    var errors := CheckCharacters(s);
    if errors != [] { return None; }
    var pos := LastSeparator(s);
    if |s| > limit { return None; }
    if pos == -1 || pos == 0 || pos + CHECKSUM_SIZE >= |s| { return None; }
    var values := ReadData(s[pos + 1..]);
    if values.None? { return None; }
    var hrp := Lower(s[..pos]);
    return Some((hrp, values.value));
  }

  method DecodeText(s: seq<nat>, limit: nat) returns (r: Option<Result>)
    ensures Answers(s, limit, r)
  {
    var parts := SplitText(s, limit);
    if parts.None? {
      NotWellFormed(s, limit);
      return None;
    }
    var result := Verify(parts.value.0, parts.value.1);
    Conclude(s, limit, parts.value.0, parts.value.1, result);
    return Outcome(parts.value.0, parts.value.1, result);
  }

  method Decode(s: seq<nat>, limit: nat) returns (r: Option<Result>)
    ensures r == Decoded(s, limit)
  {
    r := DecodeText(s, limit);
    assert Key(3, 0);
  }

  // ----- decoding what was encoded

  /** A human-readable part that survives: not empty, printable, without upper case. */
  ghost predicate LegalHrp(hrp: seq<nat>) {
    hrp != [] && forall i :: 0 <= i < |hrp| ==> 33 <= hrp[i] <= 126 && !IsUpper(hrp[i])
  }

  ghost predicate FiveBit(vs: seq<nat>) { forall i :: 0 <= i < |vs| ==> vs[i] < 32 }

  lemma LettersReadBack(vs: seq<nat>)
    requires FiveBit(vs)
    ensures Readable(Letters(vs)) && ReadValues(Letters(vs)) == vs
  {
    forall i | 0 <= i < |vs| ensures Rev(Letters(vs)[i]) == vs[i] { LetterReads(vs[i]); }
  }

  lemma SeparatorIs(hrp: seq<nat>, vs: seq<nat>)
    requires FiveBit(vs)
    ensures LastSeparator(Text(hrp, vs)) == |hrp|
  {
    var s := Text(hrp, vs);
    assert s[|hrp|] == SEPARATOR;
    forall i | |hrp| < i < |s| ensures s[i] != SEPARATOR {
      LetterReads(vs[i - |hrp| - 1]);
      assert s[i] == Letters(vs)[i - |hrp| - 1];
    }
  }

  /** The text has no upper case, so only its range matters. */
  lemma TextChars(hrp: seq<nat>, vs: seq<nat>)
    requires FiveBit(vs) && forall i :: 0 <= i < |hrp| ==> !IsUpper(hrp[i])
    ensures CharsOk(Text(hrp, vs)) <==> forall i :: 0 <= i < |hrp| ==> 33 <= hrp[i] <= 126
  {
    var s := Text(hrp, vs);
    forall i | |hrp| <= i < |s| ensures 33 <= s[i] <= 126 && !IsUpper(s[i]) {
      if i > |hrp| {
        LetterReads(vs[i - |hrp| - 1]);
        assert s[i] == Letters(vs)[i - |hrp| - 1];
      }
    }
    forall i | 0 <= i < |hrp| ensures s[i] == hrp[i] {}
    assert !HasUpper(s);
  }

  lemma TextDecodes(verify: Verifier, e: Encoding, hrp: seq<nat>, values: seq<nat>, sum: seq<nat>, limit: nat)
    requires FiveBit(values) && FiveBit(sum) && |sum| == CHECKSUM_SIZE && verify(hrp, values + sum) == Some(e)
    requires forall i :: 0 <= i < |hrp| ==> !IsUpper(hrp[i])
    ensures DecodedBy(verify, Text(hrp, values + sum), limit) ==
            if LegalHrp(hrp) && |hrp| + 1 + |values| + CHECKSUM_SIZE <= limit then Some(Result(e, hrp, values))
            else None
  {
    var vs := values + sum;
    var s := Text(hrp, vs);
    SeparatorIs(hrp, vs);
    TextChars(hrp, vs);
    if LegalHrp(hrp) {
      assert s[..|hrp|] == hrp && s[|hrp| + 1..] == Letters(vs);
      LettersReadBack(vs);
      assert Lowered(hrp) == hrp;
      assert vs[..|vs| - CHECKSUM_SIZE] == values;
    }
  }

  /**
   Decoding an encoded text succeeds if and only if the prefix is legal and the text is short enough; then it gives
   everything back.
   */
  lemma DecodeEncode(e: Encoding, hrp: seq<nat>, values: seq<nat>, limit: nat)
    requires Within8(hrp) && FiveBit(values) && forall i :: 0 <= i < |hrp| ==> !IsUpper(hrp[i])
    ensures Decoded(Encoded(e, hrp, values), limit) ==
            if LegalHrp(hrp) && |hrp| + 1 + |values| + CHECKSUM_SIZE <= limit then Some(Result(e, hrp, values))
            else None
  {
    ChecksumVerifies(e, hrp, values);
    TextDecodes(Verified, e, hrp, values, Checksum(e, hrp, values), limit);
  }

  lemma LettersOfRead(data: seq<nat>)
    requires Readable(data)
    ensures FiveBit(ReadValues(data)) && Letters(ReadValues(data)) == Lowered(data)
  {
    var vs := ReadValues(data);
    forall i | 0 <= i < |vs| ensures vs[i] < 32 && Letter(vs[i]) == LowerCase(data[i]) {
      RevInRange(data[i]);
      LetterOfRev(data[i]);
    }
  }

  /** A decoded text is spelled by its prefix, its values and six more symbols. */
  lemma DecodedSpells(verify: Verifier, s: seq<nat>, limit: nat, r: Result) returns (sum: seq<nat>)
    requires DecodedBy(verify, s, limit) == Some(r)
    ensures |sum| == CHECKSUM_SIZE && verify(r.hrp, r.values + sum) == Some(r.e) && FiveBit(r.values + sum)
    ensures Text(r.hrp, r.values + sum) == Lowered(s) && Within8(r.hrp)
  {
    var p := LastSeparator(s);
    LettersOfRead(s[p + 1..]);
    var vs := ReadValues(s[p + 1..]);
    sum := vs[|r.values|..];
    assert vs == r.values + sum;
    SpelledText(s, p);
    forall i | 0 <= i < p ensures Lowered(s[..p])[i] < 256 { assert 33 <= s[i] <= 126; }
  }

  lemma SpelledText(s: seq<nat>, p: nat)
    requires p < |s| && s[p] == SEPARATOR
    ensures Lowered(s) == Lowered(s[..p]) + [SEPARATOR] + Lowered(s[p + 1..])
  {
    var t := Lowered(s[..p]) + [SEPARATOR] + Lowered(s[p + 1..]);
    forall i | 0 <= i < |s| ensures Lowered(s)[i] == t[i] { if i > p { assert s[p + 1..][i - p - 1] == s[i]; } }
  }

  /** Encoding what a text decodes to gives the text back in lower case. */
  lemma EncodeDecode(s: seq<nat>, limit: nat)
    requires Decoded(s, limit).Some?
    ensures var r := Decoded(s, limit).value; Encoded(r.e, r.hrp, r.values) == Lowered(s)
  {
    var r := Decoded(s, limit).value;
    var sum := DecodedSpells(Verified, s, limit, r);
    SpelledIsEncoded(r, sum);
  }

  lemma SpelledIsEncoded(r: Result, sum: seq<nat>)
    requires |sum| == CHECKSUM_SIZE && FiveBit(r.values + sum) && Within8(r.hrp)
    requires Verified(r.hrp, r.values + sum) == Some(r.e)
    ensures Encoded(r.e, r.hrp, r.values) == Text(r.hrp, r.values + sum)
  {
    var vs := r.values + sum;
    forall i | 0 <= i < |r.values| ensures r.values[i] < 256 { assert vs[i] < 32; }
    forall i | 0 <= i < 6 ensures sum[i] < 32 { assert vs[|r.values| + i] < 32; }
    ChecksumUnique(r.e, r.hrp, r.values, sum);
  }

  // ----- errors within six adjacent characters

  /** Values that agree outside six adjacent ones and pass alike are the same. */
  ghost predicate Detects(verify: Verifier) {
    forall hrp, a, b, p: nat, n: nat :: Burst(a, b, p, n) && PassAlike(verify, hrp, a, b) ==> a == b
  }

  ghost predicate Burst(a: seq<nat>, b: seq<nat>, p: nat, n: nat) {
    && |a| == |b| && n <= 6 && p + n <= |a| && a[..p] == b[..p] && a[p + n..] == b[p + n..]
    && FiveBit(a) && FiveBit(b)
  }

  lemma ChecksumDetects()
    ensures Detects(Verified)
  {
    forall hrp, a, b, p: nat, n: nat | Burst(a, b, p, n) && Verified(hrp, a).Some? &&
    Verified(hrp, a) == Verified(hrp, b)
      ensures a == b
    {
      BurstDetected(Verified(hrp, a).value, hrp, a, b, p, n);
    }
  }

  /** The alphabet has no letter twice. */
  lemma RevInjective(x: nat, y: nat)
    requires Rev(x) == Rev(y) != -1
    ensures LowerCase(x) == LowerCase(y)
  {
    LetterOfRev(x);
    LetterOfRev(y);
  }

  lemma LetterOfRev(x: nat)
    requires Rev(x) != -1
    ensures Rev(x) >= 0 && Letter(Rev(x)) == LowerCase(x)
  {
  }

  /**
   Two texts of the same length that differ within six adjacent data or checksum characters cannot both pass with the
   same prefix and encoding, unless they are the same text in upper or lower case.
   */
  lemma ErrorsDetected(s: seq<nat>, t: seq<nat>, limit: nat, p: nat, n: nat)
    requires |s| == |t| && n <= 6 && p + n <= |s| && s[..p] == t[..p] && s[p + n..] == t[p + n..]
    requires Decoded(s, limit).Some? && Decoded(t, limit).Some?
    requires Decoded(s, limit).value.hrp == Decoded(t, limit).value.hrp
    requires Decoded(s, limit).value.e == Decoded(t, limit).value.e
    requires p > |Decoded(s, limit).value.hrp|
    ensures Lowered(s) == Lowered(t)
  {
    ChecksumDetects();
    Detected(Verified, s, t, limit, p, n);
  }

  lemma Detected(verify: Verifier, s: seq<nat>, t: seq<nat>, limit: nat, p: nat, n: nat)
    requires Detects(verify) && |s| == |t| && n <= 6 && p + n <= |s| && s[..p] == t[..p] && s[p + n..] == t[p + n..]
    requires DecodedBy(verify, s, limit).Some? && DecodedBy(verify, t, limit).Some?
    requires var r, r' := DecodedBy(verify, s, limit).value, DecodedBy(verify, t, limit).value;
             r.hrp == r'.hrp && r.e == r'.e && p > |r.hrp|
    ensures Lowered(s) == Lowered(t)
  {
    var r, r' := DecodedBy(verify, s, limit).value, DecodedBy(verify, t, limit).value;
    DecodedParts(verify, s, limit, r);
    DecodedParts(verify, t, limit, r');
    SameText(verify, s, t, r, r', p, n);
  }

  lemma SameText(verify: Verifier, s: seq<nat>, t: seq<nat>, r: Result, r': Result, p: nat, n: nat)
    requires Detects(verify) && |s| == |t| && n <= 6 && p + n <= |s| && s[..p] == t[..p] && s[p + n..] == t[p + n..]
    requires Parts(verify, s, r) && Parts(verify, t, r') && r.hrp == r'.hrp && r.e == r'.e && p > |r.hrp|
    ensures Lowered(s) == Lowered(t)
  {
    var k := |r.hrp| + 1;
    ReadAgree(s, t, k, p, n);
    UseDetects(verify, r.hrp, ReadValues(s[k..]), ReadValues(t[k..]), p - k, n);
    SameLetters(s, t, k, p);
  }

  lemma SameLetters(s: seq<nat>, t: seq<nat>, k: nat, p: nat)
    requires |s| == |t| && k <= p <= |s| && s[..p] == t[..p]
    requires Readable(s[k..]) && Readable(t[k..]) && ReadValues(s[k..]) == ReadValues(t[k..])
    ensures Lowered(s) == Lowered(t)
  {
    forall i | 0 <= i < |s| ensures LowerCase(s[i]) == LowerCase(t[i]) {
      if i < k {
        assert s[..p][i] == t[..p][i];
      } else {
        assert ReadValues(s[k..])[i - k] == Rev(s[i]) && ReadValues(t[k..])[i - k] == Rev(t[i]);
        assert s[k..][i - k] == s[i];
        RevInjective(s[i], t[i]);
      }
    }
  }

  lemma UseDetects(verify: Verifier, hrp: seq<nat>, a: seq<nat>, b: seq<nat>, p: nat, n: nat)
    requires Detects(verify) && Burst(a, b, p, n) && PassAlike(verify, hrp, a, b)
    ensures a == b
  {
  }

  /** What a successful decoding has established. */
  ghost predicate Parts(verify: Verifier, s: seq<nat>, r: Result) {
    var k := |r.hrp| + 1;
    && k + CHECKSUM_SIZE <= |s| && Readable(s[k..])
    && var values := ReadValues(s[k..]);
       verify(r.hrp, values) == Some(r.e) && r.values == values[..|values| - CHECKSUM_SIZE]
  }

  lemma DecodedParts(verify: Verifier, s: seq<nat>, limit: nat, r: Result)
    requires DecodedBy(verify, s, limit) == Some(r)
    ensures Parts(verify, s, r)
  {
  }

  lemma ReadAgree(s: seq<nat>, t: seq<nat>, k: nat, p: nat, n: nat)
    requires |s| == |t| && k <= p && p + n <= |s| && s[..p] == t[..p] && s[p + n..] == t[p + n..] && Readable(s[k..])
    requires Readable(t[k..])
    requires n <= 6
    ensures Burst(ReadValues(s[k..]), ReadValues(t[k..]), p - k, n)
  {
    var a, b := ReadValues(s[k..]), ReadValues(t[k..]);
    forall i | 0 <= i < |a| ensures a[i] < 32 && b[i] < 32 && (i < p - k || i >= p - k + n ==> a[i] == b[i]) {
      RevInRange(s[k + i]);
      RevInRange(t[k + i]);
      if i < p - k { assert s[..p][k + i] == t[..p][k + i]; }
      if i >= p - k + n { assert s[p + n..][k + i - p - n] == t[p + n..][k + i - p - n]; }
    }
  }

  // ----- any three errors

  /** The texts agree outside three characters. */
  ghost predicate TextsDifferAt(s: seq<nat>, t: seq<nat>, i: nat, j: nat, k: nat) {
    |s| == |t| && i < j < k < |s| && forall x :: 0 <= x < |s| && x != i && x != j && x != k ==> s[x] == t[x]
  }

  /** The values agree outside three within a window of 1023. */
  ghost predicate Near(a: seq<nat>, b: seq<nat>, p: nat, q: nat, r: nat) {
    Bech32Errors.DifferAt(a, b, p, q, r) && FiveBit(a) && FiveBit(b) && r < p + 1023
  }

  ghost predicate PassAlike(verify: Verifier, hrp: seq<nat>, a: seq<nat>, b: seq<nat>) {
    verify(hrp, a).Some? && verify(hrp, a) == verify(hrp, b)
  }

  /** Such values that pass alike are the same. */
  ghost predicate DetectsThree(verify: Verifier) {
    forall hrp, a, b, p: nat, q: nat, r: nat :: Near(a, b, p, q, r) && PassAlike(verify, hrp, a, b) ==> a == b
  }

  lemma ChecksumDetectsThree()
    ensures DetectsThree(Verified)
  {
    forall hrp, a, b, p: nat, q: nat, r: nat | Near(a, b, p, q, r) && PassAlike(Verified, hrp, a, b) ensures a == b {
      Bech32Errors.ThreeErrorsDetected(Verified(hrp, a).value, hrp, a, b, p, q, r);
    }
  }

  lemma UseDetectsThree(verify: Verifier, hrp: seq<nat>, a: seq<nat>, b: seq<nat>, p: nat, q: nat, r: nat)
    requires DetectsThree(verify) && Near(a, b, p, q, r) && PassAlike(verify, hrp, a, b)
    ensures a == b
  {
  }

  lemma ValuesDifferAt(s: seq<nat>, t: seq<nat>, n: nat, i: nat, j: nat, k: nat)
    requires TextsDifferAt(s, t, i, j, k) && n <= i && Readable(s[n..]) && Readable(t[n..])
    ensures var a, b := ReadValues(s[n..]), ReadValues(t[n..]);
            Bech32Errors.DifferAt(a, b, i - n, j - n, k - n) && FiveBit(a) && FiveBit(b)
  {
    var a, b := ReadValues(s[n..]), ReadValues(t[n..]);
    forall x | 0 <= x < |a|
      ensures a[x] < 32 && b[x] < 32 && (x != i - n && x != j - n && x != k - n ==> a[x] == b[x])
    {
      RevInRange(s[n + x]);
      RevInRange(t[n + x]);
      assert s[n..][x] == s[n + x] && t[n..][x] == t[n + x];
    }
  }

  /** As in `ErrorsDetected`, for any three characters after the separator within a window of 1023. */
  lemma ThreeErrorsInText(s: seq<nat>, t: seq<nat>, limit: nat, i: nat, j: nat, k: nat)
    requires TextsDifferAt(s, t, i, j, k) && Decoded(s, limit).Some? && Decoded(t, limit).Some?
    requires Decoded(s, limit).value.hrp == Decoded(t, limit).value.hrp
    requires Decoded(s, limit).value.e == Decoded(t, limit).value.e
    requires |Decoded(s, limit).value.hrp| < i && k < i + 1023
    ensures Lowered(s) == Lowered(t)
  {
    ChecksumDetectsThree();
    ThreeDetected(Verified, s, t, limit, i, j, k);
  }

  lemma ThreeDetected(verify: Verifier, s: seq<nat>, t: seq<nat>, limit: nat, i: nat, j: nat, k: nat)
    requires DetectsThree(verify) && TextsDifferAt(s, t, i, j, k)
    requires DecodedBy(verify, s, limit).Some? && DecodedBy(verify, t, limit).Some?
    requires var r, r' := DecodedBy(verify, s, limit).value, DecodedBy(verify, t, limit).value;
             r.hrp == r'.hrp && r.e == r'.e && |r.hrp| < i && k < i + 1023
    ensures Lowered(s) == Lowered(t)
  {
    var r, r' := DecodedBy(verify, s, limit).value, DecodedBy(verify, t, limit).value;
    DecodedParts(verify, s, limit, r);
    DecodedParts(verify, t, limit, r');
    var n := |r.hrp| + 1;
    ValuesDifferAt(s, t, n, i, j, k);
    UseDetectsThree(verify, r.hrp, ReadValues(s[n..]), ReadValues(t[n..]), i - n, j - n, k - n);
    assert s[..i] == t[..i];
    SameLetters(s, t, n, i);
  }
}
