/**
  Click tracking over a whole body: which attributes the pass finds, what it makes of each, and where the reader
  lands who follows a link it wrote.
 */
module Clicks {
  import opened Text
  import opened Tracking
  import Base64

  // ----- The attributes of a text -----

  datatype Attr = Attr(name: string, before: string, after: string, open: char, link: string, close: char)

  predicate IsAttr(a: Attr) {
    && ToLower(a.name) == "href"
    && (forall i :: 0 <= i < |a.before| ==> IsBlank(a.before[i])) && (forall i :: 0 <= i < |a.after| ==> IsBlank(a.after[i]))
    && IsQuote(a.open) && IsQuote(a.close)
    && a.link != "" && forall i :: 0 <= i < |a.link| ==> !IsQuote(a.link[i])
  }

  /** What stands before the opening quote. */
  function Head(a: Attr): string { a.name + a.before + "=" + a.after }

  function Whole(a: Attr): string { Head(a) + [a.open] + a.link + [a.close] }

  ghost predicate StartsAttr(s: string) { exists a :: IsAttr(a) && Whole(a) <= s }

  lemma {:induction false} BlanksSkipped(s: string, i: nat, r: nat)
    requires i <= r <= |s| && (forall j :: i <= j < r ==> IsBlank(s[j])) && (r < |s| ==> !IsBlank(s[r]))
    ensures SkipBlanks(s, i) == r
  {
    var q := SkipBlanks(s, i);
  }

  lemma {:induction false} HrefChars(name: string)
    requires ToLower(name) == "href"
    ensures |name| == 4 && LowerChar(name[0]) == 'h' && LowerChar(name[1]) == 'r' && LowerChar(name[2]) == 'e' && LowerChar(name[3]) == 'f'
  {
    var low := ToLower(name);
    assert low[0] == 'h' && low[1] == 'r' && low[2] == 'e' && low[3] == 'f';
  }

  /** The equals sign, the opening and the closing quote stand at n, h and e. */
  ghost predicate Shaped(s: string, n: nat, h: nat, e: nat) {
    && HrefAt(s) && 4 <= n < h && h + 1 < e < |s| && s[n] == '=' && IsQuote(s[h]) && IsQuote(s[e])
    && (forall j :: 4 <= j < n ==> IsBlank(s[j])) && (forall j :: n < j < h ==> IsBlank(s[j]))
    && forall j :: h < j < e ==> !IsQuote(s[j])
  }

  lemma ShapedMatches(s: string, n: nat, h: nat, e: nat)
    requires Shaped(s, n, h, e)
    ensures MatchHref(s) == Some((h + 1, e))
  {
    BlanksSkipped(s, 4, n);
    BlanksSkipped(s, n + 1, h);
    var q := SkipToQuote(s, h + 1);
  }

  lemma AttrIsShaped(a: Attr, rest: string)
    requires IsAttr(a)
    ensures Shaped(Whole(a) + rest, 4 + |a.before|, |Head(a)|, |Head(a)| + 1 + |a.link|)
  {
    hide IsBlank, IsQuote, ToLower, LowerChar;
    HrefChars(a.name);
    var s, n, h := Whole(a) + rest, 4 + |a.before|, |Head(a)|;
    assert forall j :: 0 <= j < 4 ==> s[j] == a.name[j];
    assert forall j :: 4 <= j < n ==> s[j] == a.before[j - 4];
    assert forall j :: n < j < h ==> s[j] == a.after[j - n - 1];
    assert forall j :: h < j < h + 1 + |a.link| ==> s[j] == a.link[j - h - 1];
  }

  /** The match found is the attribute, wherever its blanks and quotes stand. */
  lemma AttrMatches(a: Attr, rest: string)
    requires IsAttr(a)
    ensures MatchHref(Whole(a) + rest) == Some((|Head(a)| + 1, |Head(a)| + 1 + |a.link|))
  {
    hide IsAttr, Whole, Head, Shaped;
    AttrIsShaped(a, rest);
    ShapedMatches(Whole(a) + rest, 4 + |a.before|, |Head(a)|, |Head(a)| + 1 + |a.link|);
  }

  lemma MatchShape(s: string, b: nat, e: nat) returns (n: nat)
    requires MatchHref(s) == Some((b, e))
    ensures b > 0 && Shaped(s, n, b - 1, e)
  {
    n := SkipBlanks(s, 4);
  }

  lemma HrefIs(s: string)
    requires HrefAt(s)
    ensures ToLower(s[..4]) == "href"
  {
  }

  lemma MatchIsAttr(s: string, b: nat, e: nat) returns (a: Attr)
    requires MatchHref(s) == Some((b, e))
    ensures IsAttr(a) && Whole(a) == s[..e + 1] && |Head(a)| + 1 == b && a.link == s[b..e]
  {
    hide MatchHref, IsBlank, IsQuote, HrefAt, ToLower;
    var x := MatchShape(s, b, e);
    HrefIs(s);
    a := Attr(s[..4], s[4..x], s[x + 1..b - 1], s[b - 1], s[b..e], s[e]);
    assert Head(a) == s[..b - 1];
  }

  lemma MatchIff(s: string)
    ensures MatchHref(s).Some? <==> StartsAttr(s)
  {
    if StartsAttr(s) {
      var a :| IsAttr(a) && Whole(a) <= s;
      PrefixAndRest(Whole(a), s);
      AttrMatches(a, s[|Whole(a)|..]);
    }
    if MatchHref(s).Some? {
      var (b, e) := MatchHref(s).value;
      var a := MatchIsAttr(s, b, e);
    }
  }

  // ----- Texts in pieces -----

  datatype Piece = Gap(text: string) | Link(attr: Attr)

  function Flat(ps: seq<Piece>): string {
    if ps == [] then "" else (if ps[0].Gap? then ps[0].text else Whole(ps[0].attr)) + Flat(ps[1..])
  }

  /** No attribute starts in the first n characters. */
  ghost predicate Silent(s: string, n: nat)
    requires n <= |s|
  {
    forall i :: 0 <= i < n ==> !StartsAttr(s[i..])
  }

  /** The links are attributes, and none starts in a gap, whatever it runs into. */
  ghost predicate Cut(ps: seq<Piece>) {
    if ps == [] then true
    else Cut(ps[1..]) && if ps[0].Gap? then Silent(Flat(ps), |ps[0].text|) else IsAttr(ps[0].attr)
  }

  /** Mail addresses, places on the page, placeholders and unsubscribe links are never tracked. */
  predicate Exempt(link: string) {
    || (|link| >= 7 && link[..7] == "mailto:")
    || (|link| >= 1 && link[0] == '#')
    || (|link| >= 2 && link[0] == '{' && link[1] == '{')
    || exists i :: 0 <= i <= |link| && HasMark(link, i)
  }

  predicate HasMark(link: string, i: nat) { i + 13 <= |link| && ToLower(link[i..i + 13]) == "/unsubscribe/" }

  lemma ExemptIff(link: string)
    ensures Untracked(link) <==> Exempt(link)
  {
    var low := ToLower(link);
    if Contains(low, "/unsubscribe/") {
      var i := Index(low, "/unsubscribe/");
      assert ToLower(link[i..i + 13]) == low[i..i + 13];
      assert HasMark(link, i);
    }
    if i :| 0 <= i <= |link| && HasMark(link, i) {
      assert ToLower(link[i..i + 13]) == low[i..i + 13];
      ContainsAt(low, "/unsubscribe/", i);
    }
  }

  /** An attribute after the pass: kept, its link replaced, or an earlier copy of the link's text replaced instead. */
  function Edited(a: Attr, track: string -> string): string {
    if Exempt(a.link) then Whole(a)
    else if !Contains(Head(a), a.link) then Whole(a.(link := track(a.link)))
    else ReplaceFirst(Head(a), a.link, track(a.link)) + [a.open] + a.link + [a.close]
  }

  function EditedFlat(ps: seq<Piece>, track: string -> string): string {
    if ps == [] then ""
    else (if ps[0].Gap? then ps[0].text else Edited(ps[0].attr, track)) + EditedFlat(ps[1..], track)
  }

  lemma {:induction false} FirstInHead(head: string, tail: string, link: string)
    requires Contains(head, link)
    ensures Index(head + tail, link) == Index(head, link)
  {
    hide Index;
    var i, s := Index(head, link), head + tail;
    assert s[i..i + |link|] == head[i..i + |link|];
    forall j | 0 <= j < i ensures !(link <= s[j..]) {
      PrefixShared(head, tail, j, link);
    }
    IndexIs(s, link, i);
  }

  lemma PrefixShared(head: string, tail: string, j: nat, p: string)
    requires j + |p| <= |head|
    ensures p <= (head + tail)[j..] <==> p <= head[j..]
  {
    assert (head + tail)[j..] == head[j..] + tail;
  }

  lemma FirstReplacedInHead(head: string, tail: string, link: string, sub: string)
    requires Contains(head, link)
    ensures ReplaceFirst(head + tail, link, sub) == ReplaceFirst(head, link, sub) + tail
  {
    hide Index;
    var i, s := Index(head, link), head + tail;
    FirstInHead(head, tail, link);
    assert s[..i] == head[..i] && s[i + |link|..] == head[i + |link|..] + tail;
  }

  lemma RewriteIsEdited(a: Attr, track: string -> string)
    requires IsAttr(a)
    ensures Rewrite(Whole(a), a.link, track) == Edited(a, track)
  {
    hide IsQuote, Contains, Index, Untracked, Exempt;
    ExemptIff(a.link);
    var m, b, link := Whole(a), |Head(a)| + 1, a.link;
    assert m[b..b + |link|] == link && m[b - 1] == a.open && m[..b - 1] == Head(a);
    if Contains(Head(a), link) {
      assert m == Head(a) + ([a.open] + link + [a.close]);
      FirstReplacedInHead(Head(a), [a.open] + link + [a.close], link, track(link));
    } else {
      EarlierIsInHead(m, b, link);
      ReplaceFirstAt(m, link, track(link), b);
      assert m[..b] == Head(a) + [a.open] && m[b + |link|..] == [a.close];
    }
  }

  lemma NothingHere(s: string, track: string -> string)
    requires s != "" && !StartsAttr(s)
    ensures ClickPass(s, track) == [s[0]] + ClickPass(s[1..], track)
  {
    MatchIff(s);
  }

  lemma {:induction false} GapPasses(p: string, rest: string, track: string -> string)
    requires Silent(p + rest, |p|)
    ensures ClickPass(p + rest, track) == p + ClickPass(rest, track)
  {
    hide ClickPass, StartsAttr;
    if p == "" {
      assert p + rest == rest;
    } else {
      var s := p + rest;
      assert s[0..] == s && s[1..] == p[1..] + rest;
      NothingHere(s, track);
      forall i | 0 <= i < |p| - 1 ensures !StartsAttr((p[1..] + rest)[i..]) {
        assert (p[1..] + rest)[i..] == s[i + 1..];
      }
      GapPasses(p[1..], rest, track);
      assert p == [p[0]] + p[1..];
    }
  }

  lemma AttrPasses(a: Attr, rest: string, track: string -> string)
    requires IsAttr(a)
    ensures ClickPass(Whole(a) + rest, track) == Edited(a, track) + ClickPass(rest, track)
  {
    hide MatchHref, Rewrite;
    AttrMatches(a, rest);
    RewriteIsEdited(a, track);
    var s, b, e := Whole(a) + rest, |Head(a)| + 1, |Head(a)| + 1 + |a.link|;
    assert s[..e + 1] == Whole(a) && s[b..e] == a.link && s[e + 1..] == rest;
  }

  lemma NothingLeft(track: string -> string)
    ensures ClickPass("", track) == ""
  {
  }

  /** The pass edits every attribute of a text on its own and leaves everything else as it is. */
  lemma {:induction false} PassEditsPieces(ps: seq<Piece>, track: string -> string)
    requires Cut(ps)
    ensures ClickPass(Flat(ps), track) == EditedFlat(ps, track)
  {
    hide ClickPass, Whole, Edited, Silent, IsAttr;
    if ps == [] {
      NothingLeft(track);
    } else {
      PassEditsPieces(ps[1..], track);
      if ps[0].Gap? {
        GapPasses(ps[0].text, Flat(ps[1..]), track);
      } else {
        AttrPasses(ps[0].attr, Flat(ps[1..]), track);
      }
    }
  }

  /** Every text has its pieces. */
  lemma {:induction false} EveryTextIsCut(s: string) returns (ps: seq<Piece>)
    ensures Cut(ps) && Flat(ps) == s
  {
    hide MatchHref, StartsAttr, IsAttr, Whole, Head;
    MatchIff(s);
    if s == "" {
      ps := [];
    } else if MatchHref(s).Some? {
      var (b, e) := MatchHref(s).value;
      var a := MatchIsAttr(s, b, e);
      var rest := EveryTextIsCut(s[e + 1..]);
      ps := [Link(a)] + rest;
      assert ps[1..] == rest && s == s[..e + 1] + s[e + 1..];
    } else {
      var rest := EveryTextIsCut(s[1..]);
      ps := [Gap([s[0]])] + rest;
      assert ps[1..] == rest && s == [s[0]] + s[1..];
      assert Flat(ps)[0..] == s;
    }
  }

  // ----- Following a tracked link -----

  function HexDigit(v: nat): char
    requires v < 16
  {
    if v < 10 then ('0' as int + v) as char else ('A' as int + v - 10) as char
  }

  function HexValue(c: char): Option<nat> {
    if '0' <= c <= '9' then Some(c as int - '0' as int)
    else if 'A' <= c <= 'F' then Some(c as int - 'A' as int + 10)
    else if 'a' <= c <= 'f' then Some(c as int - 'a' as int + 10)
    else None
  }

  predicate Unreserved(c: char) {
    'a' <= c <= 'z' || 'A' <= c <= 'Z' || '0' <= c <= '9' || c == '-' || c == '_' || c == '.' || c == '~'
  }

  function QueryEscape(s: string): string { if s == "" then "" else EscapeByte(s[0]) + QueryEscape(s[1..]) }

  function QueryUnescape(s: string): Option<string> {
    if s == "" then Some("")
    else if s[0] == '%' then
      if |s| < 3 || HexValue(s[1]).None? || HexValue(s[2]).None? then None
      else
        match QueryUnescape(s[3..])
        case None => None
        case Some(t) => Some([(HexValue(s[1]).value * 16 + HexValue(s[2]).value) as char] + t)
    else
      match QueryUnescape(s[1..])
      case None => None
      case Some(t) => Some([if s[0] == '+' then ' ' else s[0]] + t)
  }

  function EscapeByte(c: char): string {
    if Unreserved(c) then [c] else if c == ' ' then "+" else ['%', HexDigit(c as int / 16 % 16), HexDigit(c as int % 16)]
  }

  lemma HexReadsBack(n: nat)
    requires n < 256
    ensures HexValue(HexDigit(n / 16 % 16)) == Some(n / 16) && HexValue(HexDigit(n % 16)) == Some(n % 16)
    ensures Unreserved(HexDigit(n / 16 % 16)) && Unreserved(HexDigit(n % 16))
  {
  }

  lemma {:induction false} UnescapeByte(c: char, rest: string)
    requires c as int < 256
    ensures QueryUnescape(EscapeByte(c) + rest)
         == match QueryUnescape(rest) case None => None case Some(t) => Some([c] + t)
    ensures forall d :: d in EscapeByte(c) ==> Unreserved(d) || d == '+' || d == '%'
  {
    var e, n := EscapeByte(c) + rest, c as int;
    HexReadsBack(n);
    if Unreserved(c) || c == ' ' {
      assert e[1..] == rest && e[0] != '%';
    } else {
      hide HexValue, HexDigit, Unreserved;
      assert e[0] == '%' && e[1] == HexDigit(n / 16 % 16) && e[2] == HexDigit(n % 16) && e[3..] == rest;
      assert (n / 16 * 16 + n % 16) as char == c;
    }
  }

  lemma {:induction false} UnescapeEscaped(s: string)
    requires Base64.Bytes(s)
    ensures QueryUnescape(QueryEscape(s)) == Some(s)
    ensures forall c :: c in QueryEscape(s) ==> Unreserved(c) || c == '+' || c == '%'
  {
    assert QueryUnescape("") == Some("");
    hide QueryUnescape, EscapeByte, Unreserved;
    if s != "" {
      UnescapeEscaped(s[1..]);
      UnescapeByte(s[0], QueryEscape(s[1..]));
      assert s == [s[0]] + s[1..];
    }
  }

  /** The first value of a key in a query; a pair with a semicolon or a malformed escape is skipped. */
  function ValueIn(pairs: seq<string>, key: string): string {
    if pairs == [] then ""
    else
      var p := pairs[0];
      var i := Index(p, "=");
      var k, v := QueryUnescape(if i < 0 then p else p[..i]), QueryUnescape(if i < 0 then "" else p[i + 1..]);
      if p != "" && ';' !in p && k == Some(key) && v.Some? then v.value else ValueIn(pairs[1..], key)
  }

  function QueryValue(query: string, key: string): string { ValueIn(Split(query, '&'), key) }

  /** The handler takes the query's value, which is unescaped by then, and unescapes it once more if it can. */
  function Destination(query: string): Option<string> {
    var dest := QueryValue(query, "u");
    if dest == "" then None
    else
      match QueryUnescape(dest)
      case None => Some(dest)
      case Some(d) => Some(d)
  }

  function TrackedUrl(base: string, id: string, link: string): string { base + "/t/c/" + id + "?" + TrackedQuery(link) }

  function TrackedQuery(link: string): string { "u=" + QueryEscape(link) }

  lemma {:induction false} EqualsAt(v: string)
    ensures Index("u=" + v, "=") == 1
  {
    var p := "u=" + v;
    assert p[1..2] == "=" && p[0..][0] == 'u';
    IndexIs(p, "=", 1);
  }

  lemma {:induction false} FirstValue(v: string, value: string)
    requires QueryUnescape(v) == Some(value) && ';' !in v
    ensures ValueIn(["u=" + v], "u") == value
  {
    hide Index, QueryUnescape;
    var p := "u=" + v;
    EqualsAt(v);
    UnescapedIsSame("u");
    assert p[..1] == "u" && p[2..] == v;
  }

  lemma QueryHoldsLink(link: string)
    requires Base64.Bytes(link)
    ensures QueryValue(TrackedQuery(link), "u") == link
  {
    hide ValueIn, QueryEscape;
    UnescapeEscaped(link);
    SplitFree(TrackedQuery(link), '&');
    FirstValue(QueryEscape(link), link);
  }

  lemma {:induction false} UnescapedIsShorter(s: string)
    ensures QueryUnescape(s).Some? ==> |QueryUnescape(s).value| <= |s|
  {
    if s != "" {
      if s[0] != '%' {
        UnescapedIsShorter(s[1..]);
      } else if |s| >= 3 {
        UnescapedIsShorter(s[3..]);
      }
    }
  }

  lemma {:induction false} UnescapedIsSame(s: string)
    ensures QueryUnescape(s) == Some(s) <==> '%' !in s && '+' !in s
  {
    if s != "" {
      assert s == [s[0]] + s[1..];
      if s[0] == '%' {
        if |s| >= 3 { UnescapedIsShorter(s[3..]); }
      } else {
        UnescapedIsSame(s[1..]);
        if QueryUnescape(s[1..]).Some? {
          var t := QueryUnescape(s[1..]).value;
          var r := QueryUnescape(s).value;
          assert r[0] == (if s[0] == '+' then ' ' else s[0]) && r[1..] == t;
        }
      }
    }
  }

  /** Some percent sign is not followed by two hexadecimal digits. */
  predicate Malformed(s: string) {
    exists i :: 0 <= i < |s| && BadEscapeAt(s, i)
  }

  predicate BadEscapeAt(s: string, i: nat)
    requires i < |s|
  {
    s[i] == '%' && (i + 2 >= |s| || HexValue(s[i + 1]).None? || HexValue(s[i + 2]).None?)
  }

  lemma BadEscapeShifts(s: string, n: nat)
    requires n <= |s|
    ensures forall i :: 0 <= i < |s[n..]| ==> BadEscapeAt(s[n..], i) == BadEscapeAt(s, n + i)
  {
  }

  lemma {:induction false} UnescapeFails(s: string)
    ensures QueryUnescape(s).None? <==> Malformed(s)
  {
    if s != "" {
      var n := if s[0] != '%' then 1 else if BadEscapeAt(s, 0) then 0 else 3;
      if n > 0 {
        UnescapeFails(s[n..]);
        BadEscapeShifts(s, n);
        forall i | 0 <= i < |s| && BadEscapeAt(s, i) ensures i >= n {
        }
        if Malformed(s) {
          var i :| 0 <= i < |s| && BadEscapeAt(s, i);
          assert BadEscapeAt(s[n..], i - n);
        }
        if Malformed(s[n..]) {
          var i :| 0 <= i < |s[n..]| && BadEscapeAt(s[n..], i);
          assert BadEscapeAt(s, n + i);
        }
      }
    }
  }

  /**
    A reader who follows a tracked link comes to the link that was tracked exactly when that link holds no plus and no
    percent sign, or a malformed escape: any other is unescaped twice.
   */
  lemma ClickArrivesIff(link: string)
    requires Base64.Bytes(link) && link != ""
    ensures Destination(TrackedQuery(link)) == Some(link) <==> ('%' !in link && '+' !in link) || Malformed(link)
  {
    hide QueryValue, QueryUnescape, Malformed;
    QueryHoldsLink(link);
    UnescapedIsSame(link);
    UnescapeFails(link);
  }

  lemma {:induction false} UnescapeAfterPlain(a: string, b: string)
    requires '%' !in a && '+' !in a
    ensures QueryUnescape(a + b) == match QueryUnescape(b) case None => None case Some(t) => Some(a + t)
  {
    if a == "" {
      assert a + b == b;
      if QueryUnescape(b).Some? { assert a + QueryUnescape(b).value == QueryUnescape(b).value; }
    } else {
      assert (a + b)[0] == a[0] && (a + b)[1..] == a[1..] + b;
      UnescapeAfterPlain(a[1..], b);
      if QueryUnescape(b).Some? { assert a + QueryUnescape(b).value == [a[0]] + (a[1..] + QueryUnescape(b).value); }
    }
  }

  lemma {:induction false} PlusUnescapes(b: string)
    requires '%' !in b && '+' !in b
    ensures QueryUnescape("+" + b) == Some(" " + b)
  {
    UnescapedIsSame(b);
    assert ("+" + b)[1..] == b;
  }

  /** A plus sign, as in the sum of `/?q=1+1`, comes out as a blank. */
  lemma PlusIsLost(a: string, b: string)
    requires Base64.Bytes(a) && Base64.Bytes(b) && '%' !in a && '+' !in a && '%' !in b && '+' !in b
    ensures Destination(TrackedQuery(a + "+" + b)) == Some(a + " " + b)
  {
    hide QueryValue, QueryUnescape, TrackedQuery;
    QueryHoldsLink(a + "+" + b);
    PlusUnescapes(b);
    UnescapeAfterPlain(a, "+" + b);
    Regroup(a, "+", b);
    Regroup(a, " ", b);
  }

  // ----- Both kinds of tracking -----

  function TrimSlashes(s: string): string {
    if s != "" && s[|s| - 1] == '/' then TrimSlashes(s[..|s| - 1]) else s
  }

  function Pixel(base: string, id: string): string {
    "<img src=\"" + base + "/t/o/" + id + "\" width=\"1\" height=\"1\" alt=\"\" style=\"display:none\" />"
  }

  function Inject(html: string, id: string, baseUrl: string, open: bool, click: bool): string {
    if html == "" then html
    else
      var base := TrimSlashes(baseUrl);
      var out := if click then ClickPass(html, link => TrackedUrl(base, id, link)) else html;
      if open then out[..FooterPlace(out)] + Pixel(base, id) + out[FooterPlace(out)..] else out
  }

  /**
    A body in pieces, tracked: with clicks every attribute is edited on its own towards the base without its last
    slashes, without them all stays; with opens the pixel goes in as one piece before the last closing body tag.
   */
  lemma {:induction false} InjectMeans(ps: seq<Piece>, id: string, base: string, slashes: string, open: bool, click: bool)
    requires Cut(ps) && Flat(ps) != "" && (base == "" || base[|base| - 1] != '/') && forall i :: 0 <= i < |slashes| ==> slashes[i] == '/'
    ensures var out := if click then EditedFlat(ps, link => TrackedUrl(base, id, link)) else Flat(ps);
            Inject(Flat(ps), id, base + slashes, open, click)
            == if open then out[..FooterPlace(out)] + Pixel(base, id) + out[FooterPlace(out)..] else out
  {
    hide ClickPass, Flat, EditedFlat, FooterPlace, TrimSlashes, Pixel, TrackedUrl, Cut;
    TrimmedOf(base, slashes);
    PassEditsPieces(ps, link => TrackedUrl(base, id, link));
  }

  lemma {:induction false} TrimmedOf(base: string, slashes: string)
    requires (base == "" || base[|base| - 1] != '/') && forall i :: 0 <= i < |slashes| ==> slashes[i] == '/'
    ensures TrimSlashes(base + slashes) == base
  {
    if slashes == "" {
      assert base + slashes == base;
    } else {
      var s, n := base + slashes, |slashes| - 1;
      assert s[..|s| - 1] == base + slashes[..n];
      TrimmedOf(base, slashes[..n]);
    }
  }
}
