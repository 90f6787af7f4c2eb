/**
  Go's `encoding/base64` on byte strings (characters below 256), in the two variants the system uses:
  the padded standard alphabet and the unpadded URL alphabet (sections 4 and 5 of RFC 4648).
 */
module Base64 {
  import opened Text

  datatype Variant = Std | RawUrl

  predicate IsByte(c: char) { c as int < 256 }

  predicate Bytes(s: string) { forall i :: 0 <= i < |s| ==> IsByte(s[i]) }

  function Digit(v: nat, e: Variant): char
    requires v < 64
  {
    if v < 26 then ('A' as int + v) as char
    else if v < 52 then ('a' as int + v - 26) as char
    else if v < 62 then ('0' as int + v - 52) as char
    else if v == 62 then (if e.Std? then '+' else '-')
    else (if e.Std? then '/' else '_')
  }

  /** The value of an alphabet character, 64 for any other. */
  function Value(c: char, e: Variant): nat {
    if 'A' <= c <= 'Z' then c as int - 'A' as int
    else if 'a' <= c <= 'z' then c as int - 'a' as int + 26
    else if '0' <= c <= '9' then c as int - '0' as int + 52
    else if c == (if e.Std? then '+' else '-') then 62
    else if c == (if e.Std? then '/' else '_') then 63
    else 64
  }

  predicate InAlphabet(c: char, e: Variant) { Value(c, e) < 64 }

  lemma DigitValue(v: nat, e: Variant)
    requires v < 64
    ensures Value(Digit(v, e), e) == v
    ensures InAlphabet(Digit(v, e), e) && IsByte(Digit(v, e))
  {
  }

  // ----- Encoding -----

  function Quad(b0: int, b1: int, b2: int, e: Variant): string
    requires 0 <= b0 < 256 && 0 <= b1 < 256 && 0 <= b2 < 256
  {
    [Digit(b0 / 4, e), Digit(b0 % 4 * 16 + b1 / 16, e), Digit(b1 % 16 * 4 + b2 / 64, e), Digit(b2 % 64, e)]
  }

  function Padding(n: nat, e: Variant): string {
    if e.RawUrl? then "" else if n == 1 then "==" else "="
  }

  function Encode(s: string, e: Variant): string
    requires Bytes(s)
  {
    if s == "" then ""
    else if |s| == 1 then Quad(s[0] as int, 0, 0, e)[..2] + Padding(1, e)
    else if |s| == 2 then Quad(s[0] as int, s[1] as int, 0, e)[..3] + Padding(2, e)
    else Quad(s[0] as int, s[1] as int, s[2] as int, e) + Encode(s[3..], e)
  }

  // ----- Decoding -----

  /** The first n bytes of the three that four values stand for; spare bits are dropped. */
  function Bytes3(v0: nat, v1: nat, v2: nat, v3: nat, n: nat): string
    requires v0 < 64 && v1 < 64 && v2 < 64 && v3 < 64 && n <= 3
  {
    [(v0 * 4 + v1 / 16) as char, (v1 % 16 * 16 + v2 / 4) as char, (v2 % 4 * 64 + v3) as char][..n]
  }

  predicate AllIn(s: string, n: nat, e: Variant)
    requires n <= |s|
  {
    forall i :: 0 <= i < n ==> InAlphabet(s[i], e)
  }

  function DecodeGroups(s: string, e: Variant): Option<string> {
    if s == "" then Some("")
    else if |s| >= 4 && AllIn(s, 4, e) then
      match DecodeGroups(s[4..], e)
      case None => None
      case Some(rest) => Some(Bytes3(Value(s[0], e), Value(s[1], e), Value(s[2], e), Value(s[3], e), 3) + rest)
    else if |s| == (if e.Std? then 4 else 2) && AllIn(s, 2, e) && s[2..] == Padding(1, e) then
      Some(Bytes3(Value(s[0], e), Value(s[1], e), 0, 0, 1))
    else if |s| == (if e.Std? then 4 else 3) && AllIn(s, 3, e) && s[3..] == Padding(2, e) then
      Some(Bytes3(Value(s[0], e), Value(s[1], e), Value(s[2], e), 0, 2))
    else None
  }

  function Without(s: string, drop: char -> bool): string {
    if s == "" then ""
    else if drop(s[0]) then Without(s[1..], drop)
    else [s[0]] + Without(s[1..], drop)
  }

  predicate IsNewline(c: char) { c == '\n' || c == '\r' }

  /** The decoder itself skips line breaks wherever they stand. */
  function Decode(s: string, e: Variant): Option<string> {
    DecodeGroups(Without(s, IsNewline), e)
  }

  // ----- Round trip -----

  lemma {:induction false} WithoutNothing(s: string, drop: char -> bool)
    requires forall c :: c in s ==> !drop(c)
    ensures Without(s, drop) == s
  {
    if s != "" { WithoutNothing(s[1..], drop); }
  }

  lemma QuadValues(b0: int, b1: int, b2: int, e: Variant)
    requires 0 <= b0 < 256 && 0 <= b1 < 256 && 0 <= b2 < 256
    ensures var q := Quad(b0, b1, b2, e);
            && AllIn(q, 4, e)
            && Value(q[0], e) == b0 / 4 && Value(q[1], e) == b0 % 4 * 16 + b1 / 16
            && Value(q[2], e) == b1 % 16 * 4 + b2 / 64 && Value(q[3], e) == b2 % 64
  {
    DigitValue(b0 / 4, e);
    DigitValue(b0 % 4 * 16 + b1 / 16, e);
    DigitValue(b1 % 16 * 4 + b2 / 64, e);
    DigitValue(b2 % 64, e);
  }

  lemma {:induction false} EncodedChars(s: string, e: Variant)
    requires Bytes(s)
    ensures forall c :: c in Encode(s, e) ==> InAlphabet(c, e) || c == '='
    ensures e.RawUrl? ==> forall c :: c in Encode(s, e) ==> InAlphabet(c, e)
    ensures s != "" ==> Encode(s, e) != "" && InAlphabet(Encode(s, e)[0], e)
  {
    if s != "" {
      var b0, b1, b2 := s[0] as int, if |s| > 1 then s[1] as int else 0, if |s| > 2 then s[2] as int else 0;
      var q := Quad(b0, b1, b2, e);
      QuadValues(b0, b1, b2, e);
      hide Quad, InAlphabet;
      assert forall c :: c in q ==> InAlphabet(c, e);
      if |s| >= 3 {
        EncodedChars(s[3..], e);
      }
    }
  }

  lemma Repack(b0: int, b1: int, b2: int, n: nat)
    requires 0 <= b0 < 256 && 0 <= b1 < 256 && 0 <= b2 < 256 && n <= 3
    ensures Bytes3(b0 / 4, b0 % 4 * 16 + b1 / 16, b1 % 16 * 4 + b2 / 64, b2 % 64, n) == [b0 as char, b1 as char, b2 as char][..n]
  {
    var v1, v2 := b0 % 4 * 16 + b1 / 16, b1 % 16 * 4 + b2 / 64;
    assert v1 / 16 == b0 % 4 && v1 % 16 == b1 / 16;
    assert v2 / 4 == b1 % 16 && v2 % 4 == b2 / 64;
  }

  lemma {:induction false} DecodeFull(q: string, rest: string, e: Variant)
    requires |q| == 4 && AllIn(q, 4, e)
    ensures DecodeGroups(q + rest, e) ==
            match DecodeGroups(rest, e)
            case None => None
            case Some(r) => Some(Bytes3(Value(q[0], e), Value(q[1], e), Value(q[2], e), Value(q[3], e), 3) + r)
  {
    var t := q + rest;
    assert forall i :: 0 <= i < 4 ==> t[i] == q[i];
    assert t[4..] == rest;
  }

  lemma {:induction false} DecodeTwo(q: string, e: Variant)
    requires |q| == 4 && AllIn(q, 4, e)
    ensures DecodeGroups(q[..3] + Padding(2, e), e) == Some(Bytes3(Value(q[0], e), Value(q[1], e), Value(q[2], e), 0, 2))
  {
    var t := q[..3] + Padding(2, e);
    assert forall i :: 0 <= i < 3 ==> t[i] == q[i];
    assert t[3..] == Padding(2, e);
    assert e.Std? ==> t[3] == '=' && t[2..][0] == q[2];
  }

  lemma {:induction false} DecodeOne(q: string, e: Variant)
    requires |q| == 4 && AllIn(q, 4, e)
    ensures DecodeGroups(q[..2] + Padding(1, e), e) == Some(Bytes3(Value(q[0], e), Value(q[1], e), 0, 0, 1))
  {
    var t := q[..2] + Padding(1, e);
    assert forall i :: 0 <= i < 2 ==> t[i] == q[i];
    assert t[2..] == Padding(1, e);
    assert e.Std? ==> t[2] == '=';
  }

  lemma {:induction false} TailOfTwo(b0: int, b1: int, e: Variant)
    requires 0 <= b0 < 256 && 0 <= b1 < 256
    ensures DecodeGroups(Quad(b0, b1, 0, e)[..3] + Padding(2, e), e) == Some([b0 as char, b1 as char])
  {
    QuadValues(b0, b1, 0, e);
    Repack(b0, b1, 0, 2);
    DecodeTwo(Quad(b0, b1, 0, e), e);
    assert [b0 as char, b1 as char, 0 as char][..2] == [b0 as char, b1 as char];
  }

  lemma {:induction false} TailOfOne(b0: int, e: Variant)
    requires 0 <= b0 < 256
    ensures DecodeGroups(Quad(b0, 0, 0, e)[..2] + Padding(1, e), e) == Some([b0 as char])
  {
    QuadValues(b0, 0, 0, e);
    Repack(b0, 0, 0, 1);
    DecodeOne(Quad(b0, 0, 0, e), e);
    assert [b0 as char, 0 as char, 0 as char][..1] == [b0 as char];
  }

  lemma {:induction false} GroupOfThree(b0: int, b1: int, b2: int, rest: string, s: string, e: Variant)
    requires 0 <= b0 < 256 && 0 <= b1 < 256 && 0 <= b2 < 256
    requires DecodeGroups(rest, e) == Some(s)
    ensures DecodeGroups(Quad(b0, b1, b2, e) + rest, e) == Some([b0 as char, b1 as char, b2 as char] + s)
  {
    QuadValues(b0, b1, b2, e);
    Repack(b0, b1, b2, 3);
    DecodeFull(Quad(b0, b1, b2, e), rest, e);
    var three := [b0 as char, b1 as char, b2 as char];
    assert three[..3] == three;
  }

  lemma {:induction false} DecodeNothing(e: Variant)
    ensures DecodeGroups("", e) == Some("")
  {
  }

  lemma {:induction false} DecodeEncode(s: string, e: Variant)
    requires Bytes(s)
    ensures DecodeGroups(Encode(s, e), e) == Some(s)
  {
    hide DecodeGroups, Quad, Padding;
    if s == "" {
      DecodeNothing(e);
    } else if |s| == 1 {
      TailOfOne(s[0] as int, e);
      assert s == [s[0]];
    } else if |s| == 2 {
      TailOfTwo(s[0] as int, s[1] as int, e);
      assert s == [s[0], s[1]];
    } else {
      DecodeEncode(s[3..], e);
      GroupOfThree(s[0] as int, s[1] as int, s[2] as int, Encode(s[3..], e), s[3..], e);
      assert s == [s[0], s[1], s[2]] + s[3..];
    }
  }

  /** Every byte string comes back from its encoding, in either variant. */
  lemma {:induction false} RoundTrip(s: string, e: Variant)
    requires Bytes(s)
    ensures Decode(Encode(s, e), e) == Some(s)
  {
    EncodedChars(s, e);
    WithoutNothing(Encode(s, e), IsNewline);
    DecodeEncode(s, e);
  }

  // ----- What the code is -----

  const LETTERS := "ABCDEFGHIJKLMNOPQRSTUVWXYZ"
  const SMALL := "abcdefghijklmnopqrstuvwxyz"
  const DIGITS := "0123456789"

  /** The alphabets, as tables 1 and 2 of RFC 4648 list them. */
  function Alphabet(e: Variant): string { LETTERS + SMALL + DIGITS + if e.Std? then "+/" else "-_" }

  lemma TablesHold()
    ensures |LETTERS| == 26 && |SMALL| == 26 && |DIGITS| == 10
    ensures forall v :: 0 <= v < 26 ==> LETTERS[v] as int == 'A' as int + v
    ensures forall v :: 0 <= v < 26 ==> SMALL[v] as int == 'a' as int + v
    ensures forall v :: 0 <= v < 10 ==> DIGITS[v] as int == '0' as int + v
  {
  }

  lemma DigitIsInTable(v: nat, e: Variant)
    requires v < 64
    ensures |Alphabet(e)| == 64 && Digit(v, e) == Alphabet(e)[v]
  {
    TablesHold();
    hide LETTERS, SMALL, DIGITS;
    var rest := if e.Std? then "+/" else "-_";
    assert Alphabet(e) == LETTERS + SMALL + DIGITS + rest;
  }

  /** Three bytes and four digits are the same 24-bit number. */
  lemma QuadIsNumber(b0: int, b1: int, b2: int, e: Variant)
    requires 0 <= b0 < 256 && 0 <= b1 < 256 && 0 <= b2 < 256
    ensures var q := Quad(b0, b1, b2, e);
            Value(q[0], e) * 0x4_0000 + Value(q[1], e) * 0x1000 + Value(q[2], e) * 0x40 + Value(q[3], e) == b0 * 0x1_0000 + b1 * 0x100 + b2
  {
    QuadValues(b0, b1, b2, e);
  }

  // ----- What decodes -----

  /** Digits only, but for the padding that the length calls for. */
  predicate WellFormed(t: string, e: Variant) {
    if e.RawUrl? then |t| % 4 != 1 && AllIn(t, |t|, e)
    else
      |t| % 4 == 0
      && (AllIn(t, |t|, e)
          || (|t| >= 4 && t[|t| - 1] == '=' && AllIn(t, |t| - 1, e))
          || (|t| >= 4 && t[|t| - 2] == '=' && t[|t| - 1] == '=' && AllIn(t, |t| - 2, e)))
  }

  lemma PadIsNoDigit(e: Variant)
    ensures !InAlphabet('=', e)
  {
  }

  lemma GroupShape(t: string, e: Variant)
    requires |t| >= 4 && AllIn(t, 4, e)
    ensures WellFormed(t, e) <==> WellFormed(t[4..], e)
  {
    hide InAlphabet;
    PadIsNoDigit(e);
    var r := t[4..];
    assert forall i :: 0 <= i < |r| ==> r[i] == t[i + 4];
    assert forall i :: 4 <= i < |t| ==> t[i] == r[i - 4];
    assert forall n :: 0 <= n <= |r| ==> (AllIn(r, n, e) <==> AllIn(t, n + 4, e));
  }

  lemma LastShape(t: string, e: Variant)
    requires t != "" && !(|t| >= 4 && AllIn(t, 4, e))
    ensures WellFormed(t, e) <==>
              || (|t| == (if e.Std? then 4 else 2) && AllIn(t, 2, e) && t[2..] == Padding(1, e))
              || (|t| == (if e.Std? then 4 else 3) && AllIn(t, 3, e) && t[3..] == Padding(2, e))
  {
    hide InAlphabet;
    PadIsNoDigit(e);
    if e.Std? && |t| == 4 {
      assert t[2..] == [t[2], t[3]] && t[3..] == [t[3]];
    }
  }

  lemma {:induction false} DecodesIff(t: string, e: Variant)
    ensures DecodeGroups(t, e).Some? <==> WellFormed(t, e)
  {
    hide WellFormed, InAlphabet, AllIn;
    if t == "" {
      EmptyIsWellFormed(e);
    } else if |t| >= 4 && AllIn(t, 4, e) {
      GroupShape(t, e);
      DecodesIff(t[4..], e);
    } else {
      LastShape(t, e);
    }
  }

  lemma EmptyIsWellFormed(e: Variant)
    ensures WellFormed("", e)
  {
  }

  lemma Unpack(v0: nat, v1: nat, v2: nat, v3: nat)
    requires v0 < 64 && v1 < 64 && v2 < 64 && v3 < 64
    ensures var b0, b1, b2 := v0 * 4 + v1 / 16, v1 % 16 * 16 + v2 / 4, v2 % 4 * 64 + v3;
            && b0 < 256 && b1 < 256 && b2 < 256
            && b0 / 4 == v0 && b0 % 4 * 16 + b1 / 16 == v1 && b1 % 16 * 4 + b2 / 64 == v2 && b2 % 64 == v3
            && b0 % 4 * 16 == v1 / 16 * 16 && b1 % 16 * 4 == v2 / 4 * 4
  {
  }

  lemma ValueDigit(c: char, e: Variant)
    requires InAlphabet(c, e)
    ensures Digit(Value(c, e), e) == c
  {
  }

  /** So many digits stand for so many bytes and nothing else. */
  function Exact(n: nat): nat { n / 3 * 4 + n % 3 }

  ghost predicate ComesFrom(t: string, b: string, e: Variant) {
    && Bytes(b) && |Encode(b, e)| == |t| && Exact(|b|) <= |t|
    && Encode(b, e)[..Exact(|b|)] == t[..Exact(|b|)]
    && (|b| % 3 == 0 ==> Encode(b, e) == t)
  }

  lemma GroupBack(t: string, e: Variant) returns (three: string)
    requires |t| >= 4 && AllIn(t, 4, e)
    ensures |three| == 3 && Bytes(three)
    ensures three == Bytes3(Value(t[0], e), Value(t[1], e), Value(t[2], e), Value(t[3], e), 3)
    ensures Quad(three[0] as int, three[1] as int, three[2] as int, e) == t[..4]
  {
    var v0, v1, v2, v3 := Value(t[0], e), Value(t[1], e), Value(t[2], e), Value(t[3], e);
    Unpack(v0, v1, v2, v3);
    ValueDigit(t[0], e);
    ValueDigit(t[1], e);
    ValueDigit(t[2], e);
    ValueDigit(t[3], e);
    hide Digit, Value;
    var b0, b1, b2 := v0 * 4 + v1 / 16, v1 % 16 * 16 + v2 / 4, v2 % 4 * 64 + v3;
    three := [b0 as char, b1 as char, b2 as char];
  }

  lemma ThreeFromFour(t: string, rest: string, e: Variant)
    requires |t| >= 4 && AllIn(t, 4, e) && ComesFrom(t[4..], rest, e)
    ensures ComesFrom(t, Bytes3(Value(t[0], e), Value(t[1], e), Value(t[2], e), Value(t[3], e), 3) + rest, e)
  {
    var three := GroupBack(t, e);
    hide Bytes3, Value, InAlphabet, Quad, Encode;
    EncodeThree(three, rest, e);
    CommonPrefix(t[..4], Encode(rest, e), t[4..], Exact(|rest|));
    assert t == t[..4] + t[4..] && Exact(|three + rest|) == 4 + Exact(|rest|);
  }

  lemma {:induction false} EncodeThree(three: string, rest: string, e: Variant)
    requires |three| == 3 && Bytes(three) && Bytes(rest)
    ensures Bytes(three + rest)
    ensures Encode(three + rest, e) == Quad(three[0] as int, three[1] as int, three[2] as int, e) + Encode(rest, e)
  {
    assert (three + rest)[3..] == rest;
  }

  lemma CommonPrefix(a: string, b: string, c: string, n: nat)
    requires n <= |b| && n <= |c| && b[..n] == c[..n]
    ensures (a + b)[..|a| + n] == (a + c)[..|a| + n]
  {
    assert (a + b)[..|a| + n] == a + b[..n];
  }

  lemma OneFromTwo(t: string, e: Variant)
    requires |t| == (if e.Std? then 4 else 2) && AllIn(t, 2, e) && t[2..] == Padding(1, e)
    ensures ComesFrom(t, Bytes3(Value(t[0], e), Value(t[1], e), 0, 0, 1), e)
  {
    var v0, v1 := Value(t[0], e), Value(t[1], e);
    Unpack(v0, v1, 0, 0);
    ValueDigit(t[0], e);
    hide Digit, Value;
    var b := [(v0 * 4 + v1 / 16) as char];
    assert Bytes3(v0, v1, 0, 0, 1) == b;
    assert Encode(b, e)[..1] == [t[0]] == t[..1];
  }

  lemma PairBack(t: string, e: Variant) returns (b: string)
    requires |t| >= 3 && AllIn(t, 3, e)
    ensures |b| == 2 && Bytes(b) && b == Bytes3(Value(t[0], e), Value(t[1], e), Value(t[2], e), 0, 2)
    ensures Quad(b[0] as int, b[1] as int, 0, e)[..2] == t[..2]
  {
    var v0, v1, v2 := Value(t[0], e), Value(t[1], e), Value(t[2], e);
    Unpack(v0, v1, v2, 0);
    ValueDigit(t[0], e);
    ValueDigit(t[1], e);
    hide Digit, Value;
    b := [(v0 * 4 + v1 / 16) as char, (v1 % 16 * 16 + v2 / 4) as char];
  }

  lemma TwoFromThree(t: string, e: Variant)
    requires |t| == (if e.Std? then 4 else 3) && AllIn(t, 3, e) && t[3..] == Padding(2, e)
    ensures ComesFrom(t, Bytes3(Value(t[0], e), Value(t[1], e), Value(t[2], e), 0, 2), e)
  {
    var b := PairBack(t, e);
    hide Bytes3, Value, InAlphabet, Digit;
    assert Encode(b, e)[..2] == Quad(b[0] as int, b[1] as int, 0, e)[..2];
  }

  /** What decodes to some bytes is their encoding, except for the spare bits of the last digit. */
  lemma {:induction false} DecodedFromEncoding(t: string, e: Variant)
    requires DecodeGroups(t, e).Some?
    ensures ComesFrom(t, DecodeGroups(t, e).value, e)
  {
    assert ComesFrom("", "", e);
    hide ComesFrom, Bytes3, InAlphabet, Padding;
    if t == "" {
      return;
    } else if |t| >= 4 && AllIn(t, 4, e) {
      DecodedFromEncoding(t[4..], e);
      ThreeFromFour(t, DecodeGroups(t[4..], e).value, e);
    } else if |t| == (if e.Std? then 4 else 2) && AllIn(t, 2, e) && t[2..] == Padding(1, e) {
      OneFromTwo(t, e);
    } else {
      TwoFromThree(t, e);
    }
  }
}
