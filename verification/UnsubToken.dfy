/**
  One-click unsubscribe (section 3 of RFC 8058): signed tokens that bind a message to one recipient, and the
  choice of the address a request may unsubscribe. Times are seconds; UUIDs and the MAC come from the host.
 */
module UnsubToken {
  import opened Text
  import opened Base64

  type Uuid = nat

  /** Foreign calls: printing and parsing UUIDs, and the hex MAC of a payload under a secret. */
  datatype Host = Host(uuidText: Uuid -> string, parseUuid: string -> Option<Uuid>, mac: (string, string) -> string)

  predicate Ascii(s: string) { forall i :: 0 <= i < |s| ==> s[i] as int < 128 }

  ghost predicate GoodUuid(h: Host, id: Uuid) {
    h.parseUuid(h.uuidText(id)) == Some(id) && '|' !in h.uuidText(id) && Ascii(h.uuidText(id))
  }

  ghost predicate GoodMac(m: string) {
    m != "" && '.' !in m && !IsSpace(m[|m| - 1])
  }

  ghost predicate GoodHost(h: Host) {
    && (forall id {:trigger h.uuidText(id)} :: GoodUuid(h, id))
    && (forall s, p {:trigger h.mac(s, p)} :: GoodMac(h.mac(s, p)))
  }

  // ----- Decimal numbers -----

  const MIN_INT64 := -0x8000_0000_0000_0000
  const MAX_INT64 := 0x7FFF_FFFF_FFFF_FFFF

  predicate IsDigit(c: char) { '0' <= c <= '9' }

  function PrintNat(n: nat): string {
    if n < 10 then [('0' as int + n) as char] else PrintNat(n / 10) + [('0' as int + n % 10) as char]
  }

  function FormatInt(n: int): string { if n < 0 then "-" + PrintNat(-n) else PrintNat(n) }

  function ParseNat(s: string): Option<nat> {
    if s == "" || !IsDigit(s[|s| - 1]) then None
    else
      var d := s[|s| - 1] as int - '0' as int;
      if |s| == 1 then Some(d)
      else
        match ParseNat(s[..|s| - 1])
        case None => None
        case Some(n) => Some(n * 10 + d)
  }

  function ParseInt(s: string): Option<int> {
    var neg := "-" <= s;
    var digits := if neg || "+" <= s then s[1..] else s;
    match ParseNat(digits)
    case None => None
    case Some(n) =>
      var v: int := if neg then 0 - n else n;
      if MIN_INT64 <= v <= MAX_INT64 then Some(v) else None
  }

  lemma {:induction false} ParsePrintNat(n: nat)
    ensures ParseNat(PrintNat(n)) == Some(n)
    ensures forall i :: 0 <= i < |PrintNat(n)| ==> IsDigit(PrintNat(n)[i])
    ensures PrintNat(n) != ""
  {
    if n >= 10 {
      ParsePrintNat(n / 10);
      var s := PrintNat(n);
      assert s[..|s| - 1] == PrintNat(n / 10);
    }
  }

  lemma ParseFormat(n: int)
    requires MIN_INT64 <= n <= MAX_INT64
    ensures ParseInt(FormatInt(n)) == Some(n)
    ensures '|' !in FormatInt(n) && Ascii(FormatInt(n))
  {
    ParsePrintNat(if n < 0 then -n else n);
    var s := FormatInt(n);
    if n < 0 {
      assert s[1..] == PrintNat(-n);
    } else {
      assert IsDigit(s[0]);
    }
  }

  function Zeros(n: nat): string { seq(n, _ => '0') }

  lemma {:induction false} DigitOf(d: nat)
    requires d < 10
    ensures PrintNat(d) == [('0' as int + d) as char]
  {
  }

  lemma {:induction false} PaddedParses(k: nat, n: nat)
    ensures ParseNat(Zeros(k) + PrintNat(n)) == Some(n)
    decreases n
  {
    var s := Zeros(k) + PrintNat(n);
    if n >= 10 {
      PaddedParses(k, n / 10);
      assert s[..|s| - 1] == Zeros(k) + PrintNat(n / 10);
    } else {
      assert s[|s| - 1] == ('0' as int + n) as char;
      if k > 0 {
        ZerosParse(k);
        assert s[..|s| - 1] == Zeros(k);
      }
    }
  }

  lemma {:induction false} ZerosParse(k: nat)
    requires k > 0
    ensures ParseNat(Zeros(k)) == Some(0)
  {
    if k > 1 {
      ZerosParse(k - 1);
      assert Zeros(k)[..k - 1] == Zeros(k - 1);
    }
  }

  /** Only the digits of the number parse, after any zeros. */
  lemma {:induction false} ParsedIsPadded(s: string) returns (k: nat)
    requires ParseNat(s).Some?
    ensures s == Zeros(k) + PrintNat(ParseNat(s).value)
  {
    var n, d := ParseNat(s).value, s[|s| - 1] as int - '0' as int;
    if |s| == 1 {
      k := 0;
      DigitOf(d);
    } else {
      var front := s[..|s| - 1];
      var m := ParseNat(front).value;
      k := ParsedIsPadded(front);
      assert s == front + [s[|s| - 1]];
      if m > 0 {
        assert n / 10 == m && n % 10 == d;
      } else {
        assert front == Zeros(k) + "0" == Zeros(k + 1);
        k := k + 1;
        DigitOf(d);
      }
    }
  }

  /** A text parses to a number exactly when it is its digits, after any zeros and perhaps a sign, within 64 bits. */
  lemma ParsesIff(s: string, n: int)
    ensures ParseInt(s) == Some(n) <==> MIN_INT64 <= n <= MAX_INT64 && exists k: nat :: Denotes(s, n, k)
  {
    if ParseInt(s) == Some(n) {
      var k := ParsedDenotes(s, n);
    }
    if k: nat :| MIN_INT64 <= n <= MAX_INT64 && Denotes(s, n, k) {
      DenotesParses(s, n, k);
    }
  }

  predicate Denotes(s: string, n: int, k: nat) {
    var text := Zeros(k) + PrintNat(if n < 0 then -n else n);
    (n >= 0 && (s == text || s == "+" + text)) || (n <= 0 && s == "-" + text)
  }

  lemma ParsedDenotes(s: string, n: int) returns (k: nat)
    requires ParseInt(s) == Some(n)
    ensures MIN_INT64 <= n <= MAX_INT64 && Denotes(s, n, k)
  {
    hide ParseNat, PrintNat, Zeros;
    var signed := "-" <= s || "+" <= s;
    var digits := if signed then s[1..] else s;
    k := ParsedIsPadded(digits);
    assert signed ==> s == [s[0]] + digits;
  }

  lemma {:induction false} FirstIsDigit(k: nat, m: nat)
    ensures var text := Zeros(k) + PrintNat(m); text != "" && IsDigit(text[0]) && ParseNat(text) == Some(m)
  {
    PaddedParses(k, m);
    ParsePrintNat(m);
  }

  lemma ParseSigned(s: string)
    requires s != "" && (s[0] == '+' || s[0] == '-') && ParseNat(s[1..]).Some?
    ensures var m := ParseNat(s[1..]).value;
            var v: int := if s[0] == '-' then 0 - m else m;
            ParseInt(s) == if MIN_INT64 <= v <= MAX_INT64 then Some(v) else None
  {
    assert "-" <= s <==> s[0] == '-';
  }

  lemma DenotesParses(s: string, n: int, k: nat)
    requires Denotes(s, n, k) && MIN_INT64 <= n <= MAX_INT64
    ensures ParseInt(s) == Some(n)
  {
    var m := if n < 0 then -n else n;
    var text := Zeros(k) + PrintNat(m);
    FirstIsDigit(k, m);
    hide Zeros, PrintNat, ParseNat;
    if s != text {
      assert s[1..] == text && (s[0] == '+' || s[0] == '-');
      assert s[0] == '-' ==> n <= 0;
      ParseSigned(s);
    } else {
      assert !("-" <= s) && !("+" <= s);
    }
  }

  // ----- Addresses -----

  /** `Name <addr>` becomes `addr`, lower-cased and trimmed. */
  function NormalizeEmail(s: string): string {
    var t := TrimSpace(ToLower(s));
    var i, j := Index(t, "<"), Index(t, ">");
    if i >= 0 && j > i then TrimSpace(t[i + 1..j]) else t
  }

  predicate Lower(s: string) { forall i :: 0 <= i < |s| ==> LowerChar(s[i]) == s[i] }

  lemma {:induction false} LowerIsFixed(s: string)
    requires Lower(s)
    ensures ToLower(s) == s
  {
  }

  lemma PieceIsLower(s: string, t: string)
    requires Lower(s) && forall c :: c in t ==> c in s
    ensures Lower(t)
  {
    forall i | 0 <= i < |t| ensures LowerChar(t[i]) == t[i] {
      assert t[i] in s;
    }
  }

  lemma NormalizedIsClean(s: string)
    ensures Trimmed(NormalizeEmail(s)) && Lower(NormalizeEmail(s))
  {
    var t := TrimSpace(ToLower(s));
    TrimSpaceIsTrimmed(ToLower(s));
    PieceIsLower(ToLower(s), t);
    var i, j := Index(t, "<"), Index(t, ">");
    if i >= 0 && j > i {
      TrimSpaceIsTrimmed(t[i + 1..j]);
      PieceIsLower(t, NormalizeEmail(s));
    }
  }

  lemma {:induction false} NoCloserBefore(t: string, j: nat)
    requires j == Index(t, ">")
    ensures '>' !in t[..j]
  {
    forall k | 0 <= k < j ensures t[k] != '>' {
      assert !(">" <= t[k..]);
      assert t[k..][0] == t[k];
    }
  }

  /** Normalizing what was normalized changes nothing, whatever brackets the input holds. */
  lemma NormalizeIsIdempotent(s: string)
    ensures NormalizeEmail(NormalizeEmail(s)) == NormalizeEmail(s)
  {
    var t, r := TrimSpace(ToLower(s)), NormalizeEmail(s);
    NormalizedIsClean(s);
    LowerIsFixed(r);
    TrimmedIsFixed(r);
    var i, j := Index(t, "<"), Index(t, ">");
    if i >= 0 && j > i {
      NoCloserBefore(t, j);
      TrimSpaceIsTrimmed(t[i + 1..j]);
      assert forall c :: c in t[i + 1..j] ==> c in t[..j];
      IndexOfAbsentChar(r, '>');
    }
  }

  lemma {:induction false} TrimLeftSplits(s: string) returns (a: string)
    ensures s == a + TrimLeft(s) && forall c :: c in a ==> IsSpace(c)
  {
    a := "";
    if s != "" && IsSpace(s[0]) {
      var rest := TrimLeftSplits(s[1..]);
      a := [s[0]] + rest;
    }
  }

  lemma {:induction false} TrimRightSplits(s: string) returns (b: string)
    ensures s == TrimRight(s) + b && forall c :: c in b ==> IsSpace(c)
  {
    b := "";
    if s != "" && IsSpace(s[|s| - 1]) {
      var rest := TrimRightSplits(s[..|s| - 1]);
      b := rest + [s[|s| - 1]];
    }
  }

  lemma {:induction false} IndexOfChar(s: string, c: char)
    ensures Index(s, [c]) >= 0 <==> c in s
    ensures forall i :: 0 <= i < Index(s, [c]) ==> s[i] != c
    ensures Index(s, [c]) >= 0 ==> Index(s, [c]) < |s| && s[Index(s, [c])] == c
  {
    var r := Index(s, [c]);
    forall i | 0 <= i < |s| && s[i] == c ensures 0 <= r <= i {
      assert [c] <= s[i..];
    }
    if r >= 0 { assert s[r..r + 1][0] == s[r]; }
  }

  lemma {:induction false} FirstAt(s: string, c: char, i: nat)
    requires i < |s| && s[i] == c && c !in s[..i]
    ensures Index(s, [c]) == i
  {
    IndexOfChar(s, c);
    var r := Index(s, [c]);
    assert forall k :: 0 <= k < i ==> s[k] == s[..i][k];
  }

  predicate IsMark(c: char) { c == '<' || c == '>' }

  lemma MarkStays(d: char)
    ensures forall c :: IsMark(c) ==> (LowerChar(d) == c <==> d == c)
    ensures IsMark(d) ==> !IsSpace(d)
  {
  }

  lemma {:induction false} LowerKeepsMark(s: string, c: char)
    requires IsMark(c)
    ensures Index(ToLower(s), [c]) == Index(s, [c])
  {
    hide Index, LowerChar;
    var low := ToLower(s);
    forall k | 0 <= k < |s| ensures low[k] == c <==> s[k] == c {
      MarkStays(s[k]);
    }
    SameIndex(s, low, c);
  }

  lemma {:induction false} SameIndex(s: string, u: string, c: char)
    requires |u| == |s| && forall k :: 0 <= k < |s| ==> (u[k] == c <==> s[k] == c)
    ensures Index(u, [c]) == Index(s, [c])
  {
    hide Index;
    IndexOfChar(s, c);
    IndexOfChar(u, c);
  }

  /** What is cut off before it moves the first c. */
  lemma {:induction false} IndexInside(a: string, t: string, b: string, c: char)
    requires c !in a && c !in b
    ensures var i := Index(a + t + b, [c]); Index(t, [c]) == if i < 0 then -1 else i - |a|
    ensures var i := Index(a + t + b, [c]); i >= 0 ==> i >= |a|
  {
    hide Index;
    var s := a + t + b;
    IndexOfChar(s, c);
    IndexOfChar(t, c);
    if c in t {
      var k := Index(t, [c]);
      assert s[|a| + k] == c;
      assert s[..|a| + k] == a + t[..k];
      FirstAt(s, c, |a| + k);
    }
  }

  lemma SpacesHoldNoMark(a: string, c: char)
    requires IsMark(c) && forall d :: d in a ==> IsSpace(d)
    ensures c !in a
  {
    MarkStays(c);
  }

  /** Lower-casing and trimming move a bracket by what is trimmed before it. */
  lemma {:induction false} MarkMoves(s: string, a: string, b: string, c: char)
    requires IsMark(c) && ToLower(s) == a + TrimSpace(ToLower(s)) + b
    requires (forall d :: d in a ==> IsSpace(d)) && (forall d :: d in b ==> IsSpace(d))
    ensures Index(TrimSpace(ToLower(s)), [c]) == if Index(s, [c]) < 0 then -1 else Index(s, [c]) - |a|
    ensures Index(s, [c]) >= 0 ==> Index(s, [c]) >= |a|
  {
    hide TrimSpace, IsSpace, ToLower, Index, IsMark;
    SpacesHoldNoMark(a, c);
    SpacesHoldNoMark(b, c);
    LowerKeepsMark(s, c);
    IndexInside(a, TrimSpace(ToLower(s)), b, c);
  }

  lemma {:induction false} LowerSlice(s: string, i: nat, j: nat)
    requires i <= j <= |s|
    ensures ToLower(s)[i..j] == ToLower(s[i..j])
  {
    hide LowerChar, ToLower;
    var u, v := ToLower(s)[i..j], ToLower(s[i..j]);
    forall k | 0 <= k < |u| ensures u[k] == v[k] {
      assert u[k] == ToLower(s)[i + k] && v[k] == LowerChar(s[i..j][k]);
    }
  }

  lemma SliceInside(a: string, t: string, b: string, i: nat, j: nat)
    requires |a| <= i <= j <= |a| + |t|
    ensures (a + t + b)[i..j] == t[i - |a|..j - |a|]
  {
  }

  lemma {:induction false} NormalizeUnfold(s: string)
    ensures var t := TrimSpace(ToLower(s));
            var i, j := Index(t, "<"), Index(t, ">");
            NormalizeEmail(s) == if 0 <= i < j then TrimSpace(t[i + 1..j]) else t
  {
  }

  lemma {:induction false} NormalizeInside(s: string, a: string, b: string)
    requires ToLower(s) == a + TrimSpace(ToLower(s)) + b
    requires Moved(s, |a|, "<") && Moved(s, |a|, ">")
    ensures var i, j := Index(s, "<"), Index(s, ">");
            NormalizeEmail(s) == if 0 <= i < j then TrimSpace(ToLower(s[i + 1..j])) else TrimSpace(ToLower(s))
  {
    hide TrimSpace, ToLower, Index, NormalizeEmail;
    NormalizeUnfold(s);
    var i, j := Index(s, "<"), Index(s, ">");
    if 0 <= i < j {
      LowerSlice(s, i + 1, j);
      SliceInside(a, TrimSpace(ToLower(s)), b, i + 1, j);
    }
  }

  /** Trimming moves the first occurrence by n. */
  predicate Moved(s: string, n: nat, p: string) {
    var i := Index(s, p);
    Index(TrimSpace(ToLower(s)), p) == (if i < 0 then -1 else i - n) && (i >= 0 ==> i >= n)
  }

  /** What stands between the first opening bracket and the first closing one after it, if there are such, or else all of it. */
  lemma {:induction false} NormalizeMeans(s: string)
    ensures var i, j := Index(s, "<"), Index(s, ">");
            NormalizeEmail(s) == if 0 <= i < j then TrimSpace(ToLower(s[i + 1..j])) else TrimSpace(ToLower(s))
  {
    hide TrimLeft, TrimRight, ToLower, IsSpace, Index, NormalizeEmail;
    var low := ToLower(s);
    var a := TrimLeftSplits(low);
    var b := TrimRightSplits(TrimLeft(low));
    MarkMoves(s, a, b, '<');
    MarkMoves(s, a, b, '>');
    NormalizeInside(s, a, b);
  }

  /** `Name <addr>` stands for its address, whatever follows it. */
  lemma {:induction false} BracketIsTaken(name: string, addr: string, more: string)
    requires '<' !in name && '>' !in name && '>' !in addr
    ensures NormalizeEmail(name + "<" + addr + ">" + more) == TrimSpace(ToLower(addr))
  {
    hide TrimSpace, ToLower, Index, NormalizeEmail;
    var s := name + "<" + addr + ">" + more;
    var i, j := |name|, |name| + 1 + |addr|;
    NormalizeMeans(s);
    assert s[..i] == name && s[..j] == name + "<" + addr && s[i + 1..j] == addr;
    FirstAt(s, '<', i);
    FirstAt(s, '>', j);
  }

  // ----- Tokens -----

  const DEFAULT_TTL := 90 * 24 * 3600

  function Expiry(ttl: int, now: int): int { now + if ttl == 0 then DEFAULT_TTL else ttl }

  function Payload(h: Host, id: Uuid, email: string, exp: int): string {
    h.uuidText(id) + "|" + email + "|" + FormatInt(exp)
  }

  function Sign(h: Host, secret: string, id: Uuid, email: string, ttl: int, now: int): string
    requires GoodHost(h) && Ascii(email) && MIN_INT64 <= Expiry(ttl, now) <= MAX_INT64
  {
    var e := NormalizeEmail(email);
    if e == "" then ""
    else
      PayloadIsAscii(h, id, email, Expiry(ttl, now));
      var p := Payload(h, id, e, Expiry(ttl, now));
      Encode(p, RawUrl) + "." + h.mac(secret, p)
  }

  function Verify(h: Host, secret: string, id: Uuid, token: string, now: int): Option<string> {
    var parts := Split(TrimSpace(token), '.');
    if |parts| != 2 then None
    else
      match Decode(parts[0], RawUrl)
      case None => None
      case Some(payload) =>
        var fields := Split(payload, '|');
        if |fields| != 3 then None
        else if h.parseUuid(fields[0]) != Some(id) then None
        else
          var email := TrimSpace(ToLower(fields[1]));
          var exp := ParseInt(fields[2]);
          if email == "" then None
          else if exp.None? || now > exp.value then None
          else if h.mac(secret, payload) != parts[1] then None
          else Some(email)
  }

  lemma PieceIsAscii(s: string, t: string)
    requires Ascii(s) && forall c :: c in t ==> c in s
    ensures Ascii(t)
  {
    forall i | 0 <= i < |t| ensures t[i] as int < 128 {
      assert t[i] in s;
    }
  }

  lemma {:induction false} LowerIsAscii(s: string)
    requires Ascii(s)
    ensures Ascii(ToLower(s))
  {
  }

  lemma NormalizeStaysAscii(s: string)
    requires Ascii(s)
    ensures Ascii(NormalizeEmail(s))
  {
    hide ToLower, TrimSpace, Ascii;
    var t := TrimSpace(ToLower(s));
    LowerIsAscii(s);
    TrimSpaceIsTrimmed(ToLower(s));
    PieceIsAscii(ToLower(s), t);
    var i, j := Index(t, "<"), Index(t, ">");
    if i >= 0 && j > i {
      TrimSpaceIsTrimmed(t[i + 1..j]);
      PieceIsAscii(t, NormalizeEmail(s));
    }
  }

  lemma PayloadIsAscii(h: Host, id: Uuid, email: string, exp: int)
    requires GoodHost(h) && Ascii(email) && MIN_INT64 <= exp <= MAX_INT64
    ensures Bytes(Payload(h, id, NormalizeEmail(email), exp))
  {
    NormalizeStaysAscii(email);
    ParseFormat(exp);
    assert GoodUuid(h, id);
  }

  /** A payload's fields: three, unless the address itself holds the separator. */
  lemma PayloadFields(h: Host, id: Uuid, e: string, exp: int)
    requires GoodHost(h) && MIN_INT64 <= exp <= MAX_INT64
    ensures var fields := Split(Payload(h, id, e, exp), '|');
            if '|' in e then |fields| > 3 else fields == [h.uuidText(id), e, FormatInt(exp)]
    ensures Split(Payload(h, id, e, exp), '|')[0] == h.uuidText(id)
  {
    var u, d := h.uuidText(id), FormatInt(exp);
    assert GoodUuid(h, id);
    ParseFormat(exp);
    assert Payload(h, id, e, exp) == u + ['|'] + (e + ['|'] + d);
    SplitCons(u, '|', e + ['|'] + d);
    SplitAppend(e, '|', d);
    SplitFree(d, '|');
    if '|' in e {
      SplitSeparates(e, '|');
    } else {
      SplitFree(e, '|');
    }
  }

  /** The two halves of a signed token survive trimming and splitting. */
  lemma {:induction false} TokenParts(p: string, m: string)
    requires Bytes(p) && p != "" && GoodMac(m)
    ensures Split(TrimSpace(Encode(p, RawUrl) + "." + m), '.') == [Encode(p, RawUrl), m]
  {
    var b := Encode(p, RawUrl);
    var token := b + "." + m;
    EncodedChars(p, RawUrl);
    assert !IsSpace(token[0]) && token[|token| - 1] == m[|m| - 1];
    TrimmedIsFixed(token);
    assert '.' !in b;
    SplitCons(b, '.', m);
    SplitFree(m, '.');
    assert token == b + ['.'] + m;
  }

  /**
    A token signed for an address verifies for its message exactly until it expires, and yields that address in
    normal form, unless the address holds the field separator: such a token never verifies.
   */
  lemma SignedTokenVerifies(h: Host, secret: string, id: Uuid, email: string, ttl: int, signedAt: int, now: int)
    requires GoodHost(h) && Ascii(email) && MIN_INT64 <= Expiry(ttl, signedAt) <= MAX_INT64
    requires NormalizeEmail(email) != ""
    ensures Verify(h, secret, id, Sign(h, secret, id, email, ttl, signedAt), now)
         == if '|' !in NormalizeEmail(email) && now <= signedAt + (if ttl == 0 then 7_776_000 else ttl)
            then Some(NormalizeEmail(email)) else None
  {
    var e, exp := NormalizeEmail(email), Expiry(ttl, signedAt);
    var p := Payload(h, id, e, exp);
    PayloadIsAscii(h, id, email, exp);
    TokenParts(p, h.mac(secret, p));
    RoundTrip(p, RawUrl);
    PayloadFields(h, id, e, exp);
    assert GoodUuid(h, id);
    NormalizedIsClean(email);
    LowerIsFixed(e);
    TrimmedIsFixed(e);
    ParseFormat(exp);
  }

  /** A token says nothing about any other message. */
  lemma TokenIsForOneMessage(h: Host, secret: string, id: Uuid, other: Uuid, email: string, ttl: int, signedAt: int, now: int)
    requires GoodHost(h) && Ascii(email) && MIN_INT64 <= Expiry(ttl, signedAt) <= MAX_INT64
    requires NormalizeEmail(email) != "" && id != other
    ensures Verify(h, secret, other, Sign(h, secret, id, email, ttl, signedAt), now) == None
  {
    var e, exp := NormalizeEmail(email), Expiry(ttl, signedAt);
    var p := Payload(h, id, e, exp);
    PayloadIsAscii(h, id, email, exp);
    TokenParts(p, h.mac(secret, p));
    RoundTrip(p, RawUrl);
    PayloadFields(h, id, e, exp);
    assert GoodUuid(h, id);
  }

  // ----- Only what was signed is accepted -----

  lemma {:induction false} SplitTwo(s: string, c: char, a: string, b: string)
    requires Split(s, c) == [a, b]
    ensures s == a + [c] + b && c !in a && c !in b
  {
    SplitJoins(s, c);
    assert Join([b], [c]) == b;
  }

  lemma {:induction false} SplitThree(s: string, c: char, a: string, b: string, d: string)
    requires Split(s, c) == [a, b, d]
    ensures s == a + [c] + b + [c] + d && c !in a && c !in b && c !in d
  {
    SplitJoins(s, c);
    assert Join([d], [c]) == d && Join([b, d], [c]) == b + [c] + d;
  }

  /** The token is b.m, m being the MAC of the payload p that b encodes, and p is u|f|x for this message. */
  ghost predicate Carries(h: Host, secret: string, id: Uuid, token: string, b: string, u: string, f: string, x: string) {
    var p := u + "|" + f + "|" + x;
    var m := h.mac(secret, p);
    && '|' !in u && '|' !in f && '|' !in x && h.parseUuid(u) == Some(id)
    && '.' !in b && '.' !in m && TrimSpace(token) == b + "." + m && Decode(b, RawUrl) == Some(p)
  }

  ghost predicate Grants(h: Host, secret: string, id: Uuid, token: string, now: int, e: string) {
    exists b, u, f, x ::
      && Carries(h, secret, id, token, b, u, f, x)
      && e == TrimSpace(ToLower(f)) && e != "" && ParseInt(x).Some? && now <= ParseInt(x).value
  }

  lemma {:induction false} CarriedVerifies(h: Host, secret: string, id: Uuid, token: string, b: string, u: string, f: string, x: string)
    requires Carries(h, secret, id, token, b, u, f, x)
    ensures Split(TrimSpace(token), '.') == [b, h.mac(secret, u + "|" + f + "|" + x)]
    ensures Split(u + "|" + f + "|" + x, '|') == [u, f, x]
  {
    var m := h.mac(secret, u + "|" + f + "|" + x);
    SplitCons(b, '.', m);
    SplitFree(m, '.');
    assert u + "|" + f + "|" + x == u + ['|'] + (f + ['|'] + x);
    SplitCons(u, '|', f + ['|'] + x);
    SplitCons(f, '|', x);
    SplitFree(x, '|');
  }

  /**
    Whatever text comes in as a token: it gives an address exactly when its second part is the MAC of the very payload
    its first part encodes, that payload names this message and that address, and its time has not passed.
   */
  lemma AcceptedIff(h: Host, secret: string, id: Uuid, token: string, now: int, e: string)
    ensures Verify(h, secret, id, token, now) == Some(e) <==> Grants(h, secret, id, token, now, e)
  {
    hide Split, Decode, ParseInt, TrimSpace, ToLower;
    if Verify(h, secret, id, token, now) == Some(e) {
      var parts := Split(TrimSpace(token), '.');
      assert parts == [parts[0], parts[1]];
      SplitTwo(TrimSpace(token), '.', parts[0], parts[1]);
      var p := Decode(parts[0], RawUrl).value;
      var fields := Split(p, '|');
      assert fields == [fields[0], fields[1], fields[2]];
      SplitThree(p, '|', fields[0], fields[1], fields[2]);
      assert Carries(h, secret, id, token, parts[0], fields[0], fields[1], fields[2]);
    }
    if Grants(h, secret, id, token, now, e) {
      var b, u, f, x :|
        && Carries(h, secret, id, token, b, u, f, x)
        && e == TrimSpace(ToLower(f)) && e != "" && ParseInt(x).Some? && now <= ParseInt(x).value;
      CarriedVerifies(h, secret, id, token, b, u, f, x);
    }
  }

  /** The secret gives no two payloads the same MAC. */
  ghost predicate NoCollision(h: Host, secret: string) {
    forall p, q :: h.mac(secret, p) == h.mac(secret, q) ==> p == q
  }

  /** Trimming a token leaves its last part alone. */
  lemma {:induction false} TrimKeepsLastPart(b: string, m: string) returns (w: string)
    requires GoodMac(m)
    ensures TrimSpace(b + "." + m) == w + "." + m
  {
    var s := b + "." + m;
    assert s[|s| - 1] == m[|m| - 1];
    if b != "" && IsSpace(b[0]) {
      assert s[1..] == b[1..] + "." + m;
      w := TrimKeepsLastPart(b[1..], m);
    } else {
      assert s[0] == if b == "" then '.' else b[0];
      w := b;
    }
  }

  lemma LastPart(b: string, m: string, b': string, m': string)
    requires GoodMac(m) && Split(TrimSpace(b + "." + m), '.') == [b', m']
    ensures m == m'
  {
    var w := TrimKeepsLastPart(b, m);
    assert w + "." + m == w + ['.'] + m;
    SplitAppend(w, '.', m);
    SplitFree(m, '.');
    assert (Split(w, '.') + [m])[|Split(w, '.')|] == m;
  }

  /**
    A signature cannot be carried over: whatever stands before it, a token that ends in the MAC of a signed one is
    accepted only for the message and the address that were signed, and only until then.
   */
  lemma SignatureIsNotTransferable(h: Host, secret: string, id: Uuid, email: string, ttl: int, signedAt: int,
                                   b: string, other: Uuid, now: int)
    requires GoodHost(h) && NoCollision(h, secret) && Ascii(email) && MIN_INT64 <= Expiry(ttl, signedAt) <= MAX_INT64
    requires NormalizeEmail(email) != ""
    ensures var token := b + "." + h.mac(secret, Payload(h, id, NormalizeEmail(email), Expiry(ttl, signedAt)));
            var r := Verify(h, secret, other, token, now);
            r.Some? ==> other == id && r.value == NormalizeEmail(email) && now <= Expiry(ttl, signedAt)
  {
    var e, exp := NormalizeEmail(email), Expiry(ttl, signedAt);
    var p := Payload(h, id, e, exp);
    var m := h.mac(secret, p);
    var token := b + "." + m;
    var r := Verify(h, secret, other, token, now);
    if r.Some? {
      AcceptedIff(h, secret, other, token, now, r.value);
      var b', u, f, x :|
        && Carries(h, secret, other, token, b', u, f, x)
        && r.value == TrimSpace(ToLower(f)) && ParseInt(x).Some? && now <= ParseInt(x).value;
      CarriedVerifies(h, secret, other, token, b', u, f, x);
      assert GoodMac(m);
      LastPart(b, m, b', h.mac(secret, u + "|" + f + "|" + x));
      assert p == u + "|" + f + "|" + x;
      PayloadFields(h, id, e, exp);
      assert GoodUuid(h, id);
      NormalizedIsClean(email);
      LowerIsFixed(e);
      TrimmedIsFixed(e);
      ParseFormat(exp);
    }
  }

  /** The second of two parts is the MAC of what the first encodes. */
  predicate MacFits(h: Host, secret: string, token: string) {
    var parts := Split(TrimSpace(token), '.');
    |parts| == 2 && Decode(parts[0], RawUrl).Some? && h.mac(secret, Decode(parts[0], RawUrl).value) == parts[1]
  }

  lemma AcceptedFits(h: Host, secret: string, id: Uuid, token: string, now: int)
    ensures Verify(h, secret, id, token, now).Some? ==> MacFits(h, secret, token) && Verify(h, secret, id, token, now).value != ""
  {
    hide Split, Decode, TrimSpace;
  }

  // ----- Which recipient a request unsubscribes -----

  function Normed(toAddrs: seq<string>): seq<string> {
    if toAddrs == [] then []
    else
      var e := NormalizeEmail(toAddrs[|toAddrs| - 1]);
      Normed(toAddrs[..|toAddrs| - 1]) + if e != "" then [e] else []
  }

  lemma {:induction false} NormedHolds(toAddrs: seq<string>, x: string)
    ensures x in Normed(toAddrs) <==> x != "" && exists i :: 0 <= i < |toAddrs| && NormalizeEmail(toAddrs[i]) == x
  {
    hide NormalizeEmail;
    if toAddrs != [] {
      NormedHolds(toAddrs[..|toAddrs| - 1], x);
      assert forall i :: 0 <= i < |toAddrs| - 1 ==> toAddrs[..|toAddrs| - 1][i] == toAddrs[i];
    }
  }

  /** A named address must be a recipient; an unnamed one is understood only if there is a single recipient. */
  function Targets(toAddrs: seq<string>, requested: string): seq<string> {
    var normed := Normed(toAddrs);
    if requested != "" then (if requested in normed then [requested] else [])
    else if |normed| == 1 then normed else []
  }

  method NormalizeAll(toAddrs: seq<string>) returns (normed: seq<string>)
    ensures normed == Normed(toAddrs)
  {
    normed := [];
    for i := 0 to |toAddrs|
      invariant normed == Normed(toAddrs[..i])
    {
      assert toAddrs[..i + 1][..i] == toAddrs[..i];
      var e := NormalizeEmail(toAddrs[i]);
      if e != "" {
        normed := normed + [e];
      }
    }
    assert toAddrs[..|toAddrs|] == toAddrs;
  }

  method ResolveUnsubTargets(toAddrs: seq<string>, requested: string) returns (targets: seq<string>)
    ensures targets == Targets(toAddrs, requested)
  {
    hide Normed;
    var normed := NormalizeAll(toAddrs);
    if requested != "" {
      for i := 0 to |normed|
        invariant forall k :: 0 <= k < i ==> normed[k] != requested
      {
        if normed[i] == requested {
          return [normed[i]];
        }
      }
      return [];
    }
    if |normed| == 1 {
      return normed;
    }
    return [];
  }

  /** A request with a token stands or falls with the token; the plain address counts only without one. */
  method ResolveUnsubRequest(h: Host, secret: string, id: Uuid, queryToken: string, formToken: string,
                             queryEmail: string, formEmail: string, toAddrs: seq<string>, now: int) returns (targets: seq<string>)
    ensures var token := if TrimSpace(queryToken) != "" then TrimSpace(queryToken) else TrimSpace(formToken);
            targets == if token != "" then
                         match Verify(h, secret, id, token, now)
                         case None => []
                         case Some(e) => Targets(toAddrs, e)
                       else Targets(toAddrs, if NormalizeEmail(queryEmail) != "" then NormalizeEmail(queryEmail) else NormalizeEmail(formEmail))
    ensures var token := if TrimSpace(queryToken) != "" then TrimSpace(queryToken) else TrimSpace(formToken);
            token != "" && targets != [] ==> |targets| == 1 && Grants(h, secret, id, token, now, targets[0])
    ensures var token := if TrimSpace(queryToken) != "" then TrimSpace(queryToken) else TrimSpace(formToken);
            token != "" && !MacFits(h, secret, token) ==> targets == []
  {
    hide Split, Decode, TrimSpace, Verify, NormalizeEmail, Grants, MacFits;
    var token := TrimSpace(queryToken);
    if token == "" {
      token := TrimSpace(formToken);
    }
    if token != "" {
      var email := Verify(h, secret, id, token, now);
      if email.None? {
        return [];
      }
      AcceptedIff(h, secret, id, token, now, email.value);
      AcceptedFits(h, secret, id, token, now);
      targets := ResolveUnsubTargets(toAddrs, email.value);
    } else {
      var target := NormalizeEmail(queryEmail);
      if target == "" {
        target := NormalizeEmail(formEmail);
      }
      targets := ResolveUnsubTargets(toAddrs, target);
    }
  }

  /** The recipient at i is the only one whose address is not blank. */
  predicate OnlyRecipient(toAddrs: seq<string>, i: nat) {
    i < |toAddrs| && NormalizeEmail(toAddrs[i]) != "" && forall j :: 0 <= j < |toAddrs| && j != i ==> NormalizeEmail(toAddrs[j]) == ""
  }

  predicate AllBlank(toAddrs: seq<string>) { forall j :: 0 <= j < |toAddrs| ==> NormalizeEmail(toAddrs[j]) == "" }

  lemma {:induction false} NormedEmpty(toAddrs: seq<string>)
    ensures Normed(toAddrs) == [] <==> AllBlank(toAddrs)
  {
    hide NormalizeEmail;
    if toAddrs != [] {
      var n := |toAddrs| - 1;
      NormedEmpty(toAddrs[..n]);
      if NormalizeEmail(toAddrs[n]) != "" {
        assert Normed(toAddrs)[|Normed(toAddrs)| - 1] == NormalizeEmail(toAddrs[n]);
      } else {
        assert Normed(toAddrs) == Normed(toAddrs[..n]);
        assert forall j :: 0 <= j < n ==> toAddrs[..n][j] == toAddrs[j];
      }
    }
  }

  lemma OnlyRecipientStep(front: seq<string>, last: string, i: nat)
    ensures OnlyRecipient(front + [last], i) <==>
            if NormalizeEmail(last) == "" then OnlyRecipient(front, i) else i == |front| && AllBlank(front)
  {
    hide NormalizeEmail;
    var all := front + [last];
    assert all[|front|] == last && forall j :: 0 <= j < |front| ==> all[j] == front[j];
  }

  lemma LastOfOne<T>(front: seq<T>, last: T, x: T)
    ensures front + [last] == [x] <==> front == [] && last == x
  {
    assert (front + [last])[|front|] == last;
  }

  lemma {:induction false} NormedSingle(toAddrs: seq<string>, x: string)
    ensures Normed(toAddrs) == [x] <==> exists i: nat :: OnlyRecipient(toAddrs, i) && NormalizeEmail(toAddrs[i]) == x
  {
    hide NormalizeEmail;
    if toAddrs != [] {
      var n := |toAddrs| - 1;
      var front, last := toAddrs[..n], toAddrs[n];
      assert toAddrs == front + [last];
      NormedSingle(front, x);
      NormedEmpty(front);
      forall i: nat { OnlyRecipientStep(front, last, i); }
      if NormalizeEmail(last) != "" { LastOfOne(Normed(front), NormalizeEmail(last), x); }
    }
  }

  /** An address is chosen exactly when it is a recipient's and either named or the only one there is. */
  lemma ChosenIff(toAddrs: seq<string>, requested: string, x: string)
    ensures Targets(toAddrs, requested) == [x] <==>
              exists i: nat :: i < |toAddrs| && NormalizeEmail(toAddrs[i]) == x && x != ""
                               && (requested == x || (requested == "" && OnlyRecipient(toAddrs, i)))
  {
    hide NormalizeEmail, Normed;
    NormedHolds(toAddrs, x);
    NormedSingle(toAddrs, x);
  }

  /** Never more than one address, and only one the message was sent to. */
  lemma AtMostOneRecipient(toAddrs: seq<string>, requested: string)
    ensures |Targets(toAddrs, requested)| <= 1
    ensures forall x :: x in Targets(toAddrs, requested) ==> x != "" && exists i :: 0 <= i < |toAddrs| && NormalizeEmail(toAddrs[i]) == x
  {
    forall x | x in Targets(toAddrs, requested)
      ensures x != "" && exists i :: 0 <= i < |toAddrs| && NormalizeEmail(toAddrs[i]) == x
    {
      NormedHolds(toAddrs, x);
    }
  }

  /**
    From a recipient of a message, through the mailed token, back to that recipient and nobody else. The mailer
    normalizes the address before signing, which signing does again.
   */
  lemma TokenReachesItsRecipient(h: Host, secret: string, id: Uuid, toAddrs: seq<string>, r: nat, ttl: int, signedAt: int, now: int)
    requires GoodHost(h) && r < |toAddrs| && Ascii(toAddrs[r]) && MIN_INT64 <= Expiry(ttl, signedAt) <= MAX_INT64
    requires NormalizeEmail(toAddrs[r]) != "" && '|' !in NormalizeEmail(toAddrs[r]) && now <= Expiry(ttl, signedAt)
    ensures var e := NormalizeEmail(toAddrs[r]);
            && Ascii(e)
            && Verify(h, secret, id, Sign(h, secret, id, e, ttl, signedAt), now) == Some(e)
            && Targets(toAddrs, e) == [e]
  {
    var e := NormalizeEmail(toAddrs[r]);
    NormalizeStaysAscii(toAddrs[r]);
    NormalizeIsIdempotent(toAddrs[r]);
    SignedTokenVerifies(h, secret, id, e, ttl, signedAt, now);
    NormedHolds(toAddrs, e);
  }
}
