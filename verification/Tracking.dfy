/**
  What the send job does to a body after rendering: click tracking rewrites the links, and a footer with the
  unsubscribe link is added.
 */
module Tracking {
  import opened Text

  // ----- Finding links: (?i)href\s*=\s*["']([^"']+)["'] -----

  predicate IsBlank(c: char) { c == ' ' || c == '\t' || c == '\n' || c == '\r' || c as int == 12 }

  predicate IsQuote(c: char) { c == '"' || c == '\'' }

  function SkipBlanks(s: string, i: nat): (r: nat)
    requires i <= |s|
    ensures i <= r <= |s| && (forall j :: i <= j < r ==> IsBlank(s[j])) && (r < |s| ==> !IsBlank(s[r]))
    decreases |s| - i
  {
    if i < |s| && IsBlank(s[i]) then SkipBlanks(s, i + 1) else i
  }

  function SkipToQuote(s: string, i: nat): (r: nat)
    requires i <= |s|
    ensures i <= r <= |s| && (forall j :: i <= j < r ==> !IsQuote(s[j])) && (r < |s| ==> IsQuote(s[r]))
    decreases |s| - i
  {
    if i < |s| && !IsQuote(s[i]) then SkipToQuote(s, i + 1) else i
  }

  predicate HrefAt(s: string) {
    |s| >= 4 && LowerChar(s[0]) == 'h' && LowerChar(s[1]) == 'r' && LowerChar(s[2]) == 'e' && LowerChar(s[3]) == 'f'
  }

  /** Where the link text of a match at the start of `s` begins and ends; the match itself ends one quote later. */
  function MatchHref(s: string): (r: Option<(nat, nat)>)
    ensures r.Some? ==> 5 < r.value.0 < r.value.1 < |s|
  {
    if !HrefAt(s) then None
    else
      var a := SkipBlanks(s, 4);
      if a == |s| || s[a] != '=' then None
      else
        var b := SkipBlanks(s, a + 1);
        if b == |s| || !IsQuote(s[b]) then None
        else
          var e := SkipToQuote(s, b + 1);
          if e == b + 1 || e == |s| then None else Some((b + 1, e))
  }

  // ----- Rewriting them -----

  predicate Untracked(link: string) {
    "mailto:" <= link || "#" <= link || "{{" <= link || Contains(ToLower(link), "/unsubscribe/")
  }

  function Splice(s: string, i: nat, n: nat, sub: string): string
    requires i + n <= |s|
  {
    s[..i] + sub + s[i + n..]
  }

  function ReplaceFirst(s: string, pat: string, sub: string): string {
    var i := Index(s, pat);
    if i < 0 then s else Splice(s, i, |pat|, sub)
  }

  /** One matched link: kept, or its first occurrence in the match replaced. */
  function Rewrite(m: string, link: string, track: string -> string): string {
    if Untracked(link) then m else ReplaceFirst(m, link, track(link))
  }

  /** Every link of a text handed, with its whole match, to `edit`, whose answer takes the match's place. */
  function ReplaceLinks(s: string, edit: (string, string) -> string): string {
    if s == "" then ""
    else
      match MatchHref(s)
      case None => [s[0]] + ReplaceLinks(s[1..], edit)
      case Some((b, e)) => edit(s[..e + 1], s[b..e]) + ReplaceLinks(s[e + 1..], edit)
  }

  function ClickPass(s: string, track: string -> string): string {
    ReplaceLinks(s, (m, link) => Rewrite(m, link, track))
  }

  lemma FirstSlash(s: string) returns (p: nat)
    requires '/' in s
    ensures p < |s| && s[p] == '/' && forall k :: 0 <= k < p ==> s[k] != '/'
  {
    if s[0] == '/' {
      p := 0;
    } else {
      assert s == [s[0]] + s[1..];
      var q := FirstSlash(s[1..]);
      p := q + 1;
      assert forall k :: 0 < k < p ==> s[k] == s[1..][k - 1];
    }
  }

  lemma HeadHasNoSlash(m: string)
    requires MatchHref(m).Some?
    ensures forall k :: 0 <= k < MatchHref(m).value.0 ==> m[k] != '/'
  {
  }

  /** Putting the same text with a slash in earlier gives another string, when there is no slash before either place. */
  lemma PlaceShows(m: string, i: nat, b: nat, n: nat, sub: string)
    requires i < b && b + n <= |m| && '/' in sub && forall k :: 0 <= k < b ==> m[k] != '/'
    ensures Splice(m, i, n, sub) != Splice(m, b, n, sub)
  {
    var p := FirstSlash(sub);
    var got, want := Splice(m, i, n, sub), Splice(m, b, n, sub);
    assert got[i + p] == sub[p];
    assert want[i + p] == if i + p < b then m[i + p] else sub[i + p - b];
  }

  lemma {:induction false} IndexIsNoLater(s: string, p: string, i: nat)
    requires i + |p| <= |s| && s[i..i + |p|] == p
    ensures 0 <= Index(s, p) <= i
  {
    assert p <= s[i..];
  }

  lemma {:induction false} ReplaceFirstAt(s: string, pat: string, sub: string, i: nat)
    requires i == Index(s, pat)
    ensures i + |pat| <= |s| && ReplaceFirst(s, pat, sub) == Splice(s, i, |pat|, sub)
  {
  }

  lemma PlacesDiffer(m: string, i: nat, b: nat, n: nat, sub: string)
    requires i <= b && b + n <= |m| && '/' in sub && forall k :: 0 <= k < b ==> m[k] != '/'
    ensures Splice(m, i, n, sub) == Splice(m, b, n, sub) <==> i == b
  {
    hide Splice;
    if i < b { PlaceShows(m, i, b, n, sub); }
  }

  /** The link stands between quotes and holds none. */
  lemma LinkIsQuoted(m: string, b: nat, e: nat)
    requires MatchHref(m) == Some((b, e))
    ensures IsQuote(m[b - 1]) && forall k :: b <= k < e ==> !IsQuote(m[k])
  {
  }

  lemma OccurrenceIsQuoteFree(m: string, i: nat, link: string)
    requires i + |link| <= |m| && m[i..i + |link|] == link && forall k :: 0 <= k < |link| ==> !IsQuote(link[k])
    ensures forall k :: i <= k < i + |link| ==> !IsQuote(m[k])
  {
    hide IsQuote;
    forall k | i <= k < i + |link| ensures !IsQuote(m[k]) {
      assert m[k] == m[i..i + |link|][k - i];
    }
  }

  lemma HeadKeepsOccurrence(m: string, h: nat, i: nat, link: string)
    requires i + |link| <= h <= |m|
    ensures m[..h][i..i + |link|] == m[i..i + |link|]
  {
  }

  lemma EarlierLiesInHead(m: string, b: nat, link: string, i: nat)
    requires i < b && b + |link| <= |m| && m[i..i + |link|] == link
    requires IsQuote(m[b - 1]) && forall k :: 0 <= k < |link| ==> !IsQuote(link[k])
    ensures i + |link| <= b - 1 && Contains(m[..b - 1], link)
  {
    hide IsQuote, Contains;
    OccurrenceIsQuoteFree(m, i, link);
    HeadKeepsOccurrence(m, b - 1, i, link);
    ContainsAt(m[..b - 1], link, i);
  }

  lemma {:induction false} InHeadIsEarlier(m: string, h: nat, link: string)
    requires h <= |m| && Contains(m[..h], link)
    ensures 0 <= Index(m, link) && Index(m, link) + |link| <= h
  {
    hide Index;
    var j := Index(m[..h], link);
    HeadKeepsOccurrence(m, h, j, link);
    IndexIsNoLater(m, link, j);
  }

  /** So an earlier copy of its text lies wholly before the quote. */
  lemma {:induction false} EarlierIsInHead(m: string, b: nat, link: string)
    requires 0 < b && b + |link| <= |m| && m[b..b + |link|] == link
    requires IsQuote(m[b - 1]) && forall k :: 0 <= k < |link| ==> !IsQuote(link[k])
    ensures Index(m, link) == b <==> !Contains(m[..b - 1], link)
  {
    hide Index, IsQuote, Contains;
    IndexIsNoLater(m, link, b);
    if Index(m, link) < b { EarlierLiesInHead(m, b, link, Index(m, link)); }
    if Contains(m[..b - 1], link) { InHeadIsEarlier(m, b - 1, link); }
  }

  /**
    With tracked links holding a slash, as all do, a link is rewritten in place exactly when what stands before its
    opening quote does not contain its text.
   */
  lemma RewriteInPlaceIff(m: string, b: nat, e: nat, track: string -> string)
    requires MatchHref(m) == Some((b, e)) && !Untracked(m[b..e]) && '/' in track(m[b..e])
    ensures Rewrite(m, m[b..e], track) == Splice(m, b, e - b, track(m[b..e])) <==> !Contains(m[..b - 1], m[b..e])
  {
    hide Index, Splice, Untracked, Contains, MatchHref;
    var link := m[b..e];
    IndexIsNoLater(m, link, b);
    HeadHasNoSlash(m);
    ReplaceFirstAt(m, link, track(link), Index(m, link));
    PlacesDiffer(m, Index(m, link), b, e - b, track(link));
    LinkIsQuoted(m, b, e);
    assert forall k :: 0 <= k < |link| ==> link[k] == m[b + k];
    EarlierIsInHead(m, b, link);
  }

  lemma {:induction false} FirstE(m: string)
    requires |m| >= 3 && m[0] != 'e' && m[1] != 'e' && m[2] == 'e'
    ensures Index(m, "e") == 2
  {
    hide Index;
    assert m[2..3] == "e";
    forall j | 0 <= j < 2 ensures !("e" <= m[j..]) {
      assert m[j..][0] == m[j];
    }
    IndexIs(m, "e", 2);
  }

  lemma HrefOfE()
    ensures var m := "href=\"e\""; |m| == 8 && MatchHref(m) == Some((6, 7)) && m[6..7] == "e" && Index(m, "e") == 2
  {
    var m := "href=\"e\"";
    assert SkipBlanks(m, 4) == 4 && SkipBlanks(m, 5) == 5 && SkipToQuote(m, 6) == 7;
    hide SkipBlanks, SkipToQuote, Index;
    FirstE(m);
  }

  /** It does for the relative link `e`: the attribute's name is broken and the link stays. */
  lemma RewriteBreaksName(track: string -> string)
    ensures var m := "href=\"e\"";
            && MatchHref(m) == Some((6, 7)) && m[6..7] == "e" && !Untracked("e") && Contains(m[..5], "e")
            && Rewrite(m, "e", track) == "hr" + track("e") + "f=\"e\""
  {
    hide MatchHref, Untracked, Index;
    var m := "href=\"e\"";
    HrefOfE();
    NoMarkInE();
    assert m[..5][2..3] == "e";
    ContainsAt(m[..5], "e", 2);
    assert m[..2] == "hr" && m[3..] == "f=\"e\"";
  }

  lemma NoMarkInE()
    ensures !Untracked("e")
  {
    var low := ToLower("e");
    if Contains(low, "/unsubscribe/") { ContainsChar(low, "/unsubscribe/", '/'); }
    assert low[0] == 'e';
  }

  // ----- The footer -----

  function EscapeChar(c: char): string {
    if c == '&' then "&amp;"
    else if c == '<' then "&lt;"
    else if c == '>' then "&gt;"
    else if c == '"' then "&#34;"
    else if c == '\'' then "&#39;"
    else [c]
  }

  function Escape(s: string): string { if s == "" then "" else EscapeChar(s[0]) + Escape(s[1..]) }

  const OPENING := "<p style=\""
  const BEFORE_LINK := OPENING + "margin-top:2em;font-size:12px;line-" + "height" + ":1.4;color:#666666\"><a "
  const AFTER_LINK := " style=\"color:#666666\">Unsubscribe</a></p>"
  const MARK := "/unsubscribe/"

  function Link(url: string): string { "href=\"" + Escape(url) + "\"" }

  function Footer(url: string): string { BEFORE_LINK + Link(url) + AFTER_LINK }

  /** Before the last closing body tag, or at the end. */
  function FooterPlace(html: string): (i: nat)
    ensures i <= |html|
  {
    var i := LastIndex(ToLower(html), "</body>");
    if i >= 0 then i else |html|
  }

  function AppendHtml(html: string, url: string): string {
    if html != "" && !Contains(ToLower(html), MARK)
    then html[..FooterPlace(html)] + Footer(url) + html[FooterPlace(html)..]
    else html
  }

  function TrimNewlines(s: string): string {
    if s != "" && s[|s| - 1] == '\n' then TrimNewlines(s[..|s| - 1]) else s
  }

  function AppendText(html: string, text: string, url: string): string {
    if text != "" && !Contains(text, MARK) then TrimNewlines(text) + "\n\nUnsubscribe: " + url + "\n"
    else if text == "" && html != "" then "Unsubscribe: " + url + "\n"
    else text
  }

  function AppendUnsubscribe(html: string, text: string, rawUrl: string): (string, string) {
    var url := TrimSpace(rawUrl);
    if url == "" then (html, text)
    else
      var html' := AppendHtml(html, url);
      (html', AppendText(html', text, url))
  }

  // ----- Adding it once is enough -----

  lemma {:induction false} EscapeAppend(a: string, b: string)
    ensures Escape(a + b) == Escape(a) + Escape(b)
  {
    if a == "" {
      assert a + b == b;
    } else {
      assert (a + b)[0] == a[0] && (a + b)[1..] == a[1..] + b;
      EscapeAppend(a[1..], b);
    }
  }

  lemma {:induction false} EscapePlain(s: string)
    requires forall c :: c in s ==> EscapeChar(c) == [c]
    ensures Escape(s) == s
  {
    if s != "" { EscapePlain(s[1..]); }
  }

  lemma {:induction false} EscapeHasNoQuote(s: string)
    ensures forall c :: c in Escape(s) ==> !IsQuote(c) && c != '<' && c != '>'
    ensures s != "" ==> Escape(s) != ""
  {
    if s != "" { EscapeHasNoQuote(s[1..]); }
  }

  /** The entities that escaping writes, read back. */
  function Unescape(s: string): string {
    if s == "" then ""
    else if "&amp;" <= s then "&" + Unescape(s[5..])
    else if "&lt;" <= s then "<" + Unescape(s[4..])
    else if "&gt;" <= s then ">" + Unescape(s[4..])
    else if "&#34;" <= s then "\"" + Unescape(s[5..])
    else if "&#39;" <= s then "'" + Unescape(s[5..])
    else [s[0]] + Unescape(s[1..])
  }

  lemma {:induction false} UnescapeHead(c: char, rest: string)
    ensures Unescape(EscapeChar(c) + rest) == [c] + Unescape(rest)
  {
    var s := EscapeChar(c) + rest;
    if c == '&' {
      assert s[5..] == rest;
    } else if c == '<' {
      assert s[1] == 'l' && s[4..] == rest;
    } else if c == '>' {
      assert s[1] == 'g' && s[4..] == rest;
    } else if c == '"' {
      assert s[1] == '#' && s[3] == '4' && s[5..] == rest;
    } else if c == '\'' {
      assert s[1] == '#' && s[3] == '9' && s[5..] == rest;
    } else {
      assert s[0] == c && s[1..] == rest;
    }
  }

  /** The footer's link, as a reader unescapes it, is the URL. */
  lemma {:induction false} EscapeRoundTrip(s: string)
    ensures Unescape(Escape(s)) == s
  {
    assert Unescape("") == "";
    hide Unescape, EscapeChar;
    if s != "" {
      EscapeRoundTrip(s[1..]);
      UnescapeHead(s[0], Escape(s[1..]));
      assert s == [s[0]] + s[1..];
    }
  }

  lemma ContainsPiece(a: string, p: string, b: string)
    ensures Contains(a + p + b, p)
  {
    ContainsAt(a + p + b, p, |a|);
  }

  lemma SplitAt(s: string, p: string) returns (a: string, b: string)
    requires Contains(s, p)
    ensures s == a + p + b
  {
    var i := Index(s, p);
    a, b := s[..i], s[i + |p|..];
    assert s[i..i + |p|] == p;
  }

  /** Text that neither escaping nor lower-casing touches. */
  predicate PlainMark(p: string) { forall i :: 0 <= i < |p| ==> EscapeChar(p[i]) == [p[i]] && LowerChar(p[i]) == p[i] }

  lemma MarkIsPlain()
    ensures PlainMark(MARK)
  {
  }

  lemma {:induction false} PlainIsFixed(p: string)
    requires PlainMark(p)
    ensures Escape(p) == p && ToLower(p) == p
  {
    EscapePlain(p);
  }

  lemma {:induction false} EscapeKeeps(s: string, p: string)
    requires Contains(s, p) && PlainMark(p)
    ensures Contains(Escape(s), p)
  {
    var a, b := SplitAt(s, p);
    PlainIsFixed(p);
    EscapeAppend(a + p, b);
    EscapeAppend(a, p);
    ContainsPiece(Escape(a), p, Escape(b));
  }

  lemma {:induction false} LowerAppend(a: string, b: string)
    ensures ToLower(a + b) == ToLower(a) + ToLower(b)
  {
  }

  lemma {:induction false} LowerKeeps(s: string, p: string)
    requires Contains(s, p) && PlainMark(p)
    ensures Contains(ToLower(s), p)
  {
    var a, b := SplitAt(s, p);
    PlainIsFixed(p);
    LowerAppend(a + p, b);
    LowerAppend(a, p);
    ContainsPiece(ToLower(a), p, ToLower(b));
  }

  lemma WidenKeeps(x: string, s: string, y: string, p: string)
    requires Contains(s, p)
    ensures Contains(x + s + y, p)
  {
    var a, b := SplitAt(s, p);
    ContainsPiece(x + a, p, b + y);
    assert x + a + p + (b + y) == x + s + y;
  }

  lemma {:induction false} FooterShape(url: string)
    ensures Footer(url) == (BEFORE_LINK + "href=\"") + Escape(url) + ("\"" + AFTER_LINK)
  {
    RegroupFive(BEFORE_LINK, "href=\"", Escape(url), "\"", AFTER_LINK);
  }

  lemma RegroupFive(a: string, b: string, c: string, d: string, e: string)
    ensures a + (b + c + d) + e == (a + b) + c + (d + e)
  {
  }

  lemma {:induction false} InsertedKeeps(html: string, i: nat, footer: string, p: string)
    requires i <= |html| && Contains(footer, p) && PlainMark(p)
    ensures Contains(ToLower(html[..i] + footer + html[i..]), p)
  {
    WidenKeeps(html[..i], footer, html[i..], p);
    LowerKeeps(html[..i] + footer + html[i..], p);
  }

  lemma AppendedHtmlIsMarked(html: string, url: string)
    requires html != "" && Contains(url, MARK)
    ensures Contains(ToLower(AppendHtml(html, url)), MARK) && AppendHtml(html, url) != ""
  {
    MarkIsPlain();
    EscapeKeeps(url, MARK);
    FooterShape(url);
    WidenKeeps(BEFORE_LINK + "href=\"", Escape(url), "\"" + AFTER_LINK, MARK);
    InsertedKeeps(html, FooterPlace(html), Footer(url), MARK);
  }

  lemma AppendedTextIsMarked(html: string, text: string, url: string)
    requires Contains(url, MARK)
    ensures var t := AppendText(html, text, url); t == text || (t != "" && Contains(t, MARK))
  {
    WidenKeeps(TrimNewlines(text) + "\n\nUnsubscribe: ", url, "\n", MARK);
    WidenKeeps("Unsubscribe: ", url, "\n", MARK);
  }

  /** Appending twice is appending once. */
  lemma AppendIsIdempotent(html: string, text: string, rawUrl: string)
    requires Contains(TrimSpace(rawUrl), MARK)
    ensures var (h, t) := AppendUnsubscribe(html, text, rawUrl);
            AppendUnsubscribe(h, t, rawUrl) == (h, t)
  {
    var url := TrimSpace(rawUrl);
    var (h, t) := AppendUnsubscribe(html, text, rawUrl);
    if html != "" { AppendedHtmlIsMarked(html, url); }
    AppendedTextIsMarked(h, text, url);
  }

  lemma {:induction false} TrimLosesNewlines(s: string)
    ensures TrimNewlines(s) <= s && forall k :: |TrimNewlines(s)| <= k < |s| ==> s[k] == '\n'
    ensures EndsOpen(TrimNewlines(s))
  {
    if s != "" && s[|s| - 1] == '\n' { TrimLosesNewlines(s[..|s| - 1]); }
  }

  /**
    The text body: one that has the link already stays; any other keeps its text up to trailing newlines, all of which
    go, and gets the link as its last line; without one, the HTML's reader gets the link alone.
   */
  lemma TextKeepsBody(html: string, text: string, url: string)
    ensures var t := AppendText(html, text, url);
            if text == "" then t == if html == "" then "" else "Unsubscribe: " + url + "\n"
            else if Contains(text, "/unsubscribe/") then t == text
            else exists kept :: kept <= text && EndsOpen(kept) && (forall k :: |kept| <= k < |text| ==> text[k] == '\n')
                                && t == kept + "\n\nUnsubscribe: " + url + "\n"
  {
    TrimLosesNewlines(text);
    assert TrimNewlines(text) <= text;
  }

  predicate EndsOpen(s: string) { s == "" || s[|s| - 1] != '\n' }

  lemma {:induction false} LastIndexFinds(s: string, p: string)
    ensures LastIndex(s, p) >= 0 <==> Contains(s, p)
    ensures LastIndex(s, p) >= 0 ==> p <= s[LastIndex(s, p)..]
  {
    var k, r := Index(s, p), LastIndex(s, p);
    if k >= 0 { assert p <= s[k..]; }
    if r >= 0 { ContainsAt(s, p, r); }
  }

  /** The place for additions is before the last closing body tag, in any case of letters, or the end if there is none. */
  lemma {:induction false} PlaceIsBeforeBody(html: string)
    ensures var low, i := ToLower(html), FooterPlace(html);
            && (if Contains(low, "</body>") then "</body>" <= low[i..] else i == |html|)
            && forall j :: i < j < |html| ==> !("</body>" <= low[j..])
  {
    hide LastIndex, Contains, ToLower;
    LastIndexFinds(ToLower(html), "</body>");
  }

  /**
    The footer goes in as one piece, whose cutting out gives the body back, exactly when there is a body and no
    unsubscribe link in it yet.
   */
  lemma {:induction false} FooterCutsOut(html: string, url: string)
    ensures var out, i, n := AppendHtml(html, url), FooterPlace(html), |Footer(url)|;
            if html == "" || Contains(ToLower(html), "/unsubscribe/") then out == html
            else
              && |out| == |html| + n && out != html
              && out[i..i + n] == Footer(url)
              && out[..i] + out[i + n..] == html
  {
    InsertCutsOut(html, FooterPlace(html), Footer(url));
    assert |Footer(url)| > 0;
    hide Footer, FooterPlace, Contains;
  }

  lemma InsertCutsOut(s: string, i: nat, piece: string)
    requires i <= |s|
    ensures var out := s[..i] + piece + s[i..];
            |out| == |s| + |piece| && out[i..i + |piece|] == piece && out[..i] + out[i + |piece|..] == s
  {
    var out := s[..i] + piece + s[i..];
    assert out[..i] == s[..i] && out[i + |piece|..] == s[i..];
    assert s == s[..i] + s[i..];
  }

  // ----- Click tracking leaves the footer's link alone -----

  /** No `href` starts in it, wherever it stands. */
  predicate Inert(p: string) {
    forall i :: 0 <= i < |p| && LowerChar(p[i]) == 'h' ==> i + 1 < |p| && LowerChar(p[i + 1]) != 'r'
  }

  lemma InertAppend(a: string, b: string)
    requires Inert(a) && Inert(b)
    ensures Inert(a + b)
  {
  }

  lemma NoH(p: string)
    requires 'h' !in p && 'H' !in p
    ensures Inert(p)
  {
  }

  lemma {:induction false} NoLinkHere(s: string, edit: (string, string) -> string)
    requires s != "" && !HrefAt(s)
    ensures ReplaceLinks(s, edit) == [s[0]] + ReplaceLinks(s[1..], edit)
  {
  }

  lemma {:induction false} PassOver(p: string, rest: string, edit: (string, string) -> string)
    requires Inert(p)
    ensures ReplaceLinks(p + rest, edit) == p + ReplaceLinks(rest, edit)
  {
    hide ReplaceLinks, MatchHref;
    if p == "" {
      assert p + rest == rest;
    } else {
      var s := p + rest;
      assert s[0] == p[0] && s[1..] == p[1..] + rest && (|p| > 1 ==> s[1] == p[1]);
      assert !HrefAt(s);
      NoLinkHere(s, edit);
      PassOver(p[1..], rest, edit);
      assert p == [p[0]] + p[1..];
    }
  }

  lemma LinkMatches(e: string, rest: string)
    requires e != "" && forall c :: c in e ==> !IsQuote(c)
    ensures MatchHref("href=\"" + e + "\"" + rest) == Some((6, 6 + |e|))
  {
    var s := "href=\"" + e + "\"" + rest;
    assert s[0] == 'h' && s[1] == 'r' && s[2] == 'e' && s[3] == 'f';
    assert s[4] == '=' && s[5] == '"' && s[6 + |e|] == '"';
    assert forall j :: 0 <= j < |e| ==> s[6 + j] == e[j] && e[j] in e;
    assert SkipBlanks(s, 4) == 4 && SkipBlanks(s, 5) == 5;
    var q := SkipToQuote(s, 6);
    assert q == 6 + |e|;
  }

  lemma {:induction false} LinkIsKept(url: string, rest: string, edit: (string, string) -> string)
    requires url != "" && edit(Link(url), Escape(url)) == Link(url)
    ensures ReplaceLinks(Link(url) + rest, edit) == Link(url) + ReplaceLinks(rest, edit)
  {
    var e, s := Escape(url), Link(url) + rest;
    EscapeHasNoQuote(url);
    LinkMatches(e, rest);
    assert s == "href=\"" + e + "\"" + rest;
    assert s[6..6 + |e|] == e && s[..7 + |e|] == Link(url) && s[7 + |e|..] == rest;
  }

  /** A match that starts before an inert opening tag ends no later than the tag's first quote. */
  lemma MatchStopsAtTag(a: string, t: string, q: nat)
    requires a != "" && q < |t| && t[0] == '<' && IsQuote(t[q]) && forall k :: 0 <= k < q ==> !IsQuote(t[k])
    requires MatchHref(a + t).Some?
    ensures var e := MatchHref(a + t).value.1; e < |a| || e == |a| + q
  {
    var s := a + t;
    var (b, e) := MatchHref(s).value;
    assert s[|a|] == '<' && s[|a| + q] == t[q];
    assert |a| >= 4;
    var x := SkipBlanks(s, 4);
    assert x < |a|;
    var y := SkipBlanks(s, x + 1);
    assert y < |a| && b == y + 1;
    assert forall k :: 0 <= k < q ==> s[|a| + k] == t[k];
  }

  lemma {:induction false} ReplaceSkips(a: string, t: string, edit: (string, string) -> string)
    requires a != "" && MatchHref(a + t).None?
    ensures ReplaceLinks(a + t, edit) == [a[0]] + ReplaceLinks(a[1..] + t, edit)
  {
    hide MatchHref;
    assert (a + t)[1..] == a[1..] + t;
  }

  lemma ReplaceInside(a: string, t: string, b: nat, e: nat, edit: (string, string) -> string)
    requires MatchHref(a + t) == Some((b, e)) && e < |a|
    ensures ReplaceLinks(a + t, edit) == edit(a[..e + 1], a[b..e]) + ReplaceLinks(a[e + 1..] + t, edit)
  {
    hide MatchHref;
    var s := a + t;
    assert s[e + 1..] == a[e + 1..] + t && s[..e + 1] == a[..e + 1] && s[b..e] == a[b..e];
  }

  lemma ReplaceAcross(a: string, t: string, b: nat, e: nat, edit: (string, string) -> string)
    requires MatchHref(a + t) == Some((b, e)) && |a| <= e
    ensures ReplaceLinks(a + t, edit) == edit((a + t)[..e + 1], (a + t)[b..e]) + ReplaceLinks(t[e + 1 - |a|..], edit)
  {
    hide MatchHref;
    assert (a + t)[e + 1..] == t[e + 1 - |a|..];
  }

  /** The start of the footer, its first quote at q, up to a link that the edit keeps. */
  ghost predicate Guards(pre: string, q: nat, link: string, rest: string, edit: (string, string) -> string) {
    && q < |pre| && pre[0] == '<' && IsQuote(pre[q]) && (forall k :: 0 <= k < q ==> !IsQuote(pre[k]))
    && Inert(pre)
    && ReplaceLinks(link + rest, edit) == link + ReplaceLinks(rest, edit)
  }

  lemma {:induction false} GuardPasses(pre: string, n: nat, link: string, rest: string, edit: (string, string) -> string)
    requires Inert(pre) && n <= |pre|
    requires ReplaceLinks(link + rest, edit) == link + ReplaceLinks(rest, edit)
    ensures (pre + link + rest)[n..] == pre[n..] + (link + rest)
    ensures ReplaceLinks((pre + link + rest)[n..], edit) == pre[n..] + link + ReplaceLinks(rest, edit)
  {
    hide ReplaceLinks, Inert;
    var p := pre[n..];
    InertSuffix(pre, n);
    DropHead(pre, n, link, rest);
    PassOver(p, link + rest, edit);
    Regroup(p, link, ReplaceLinks(rest, edit));
  }

  lemma DropHead(a: string, n: nat, b: string, c: string)
    requires n <= |a|
    ensures (a + b + c)[n..] == a[n..] + (b + c)
  {
  }

  lemma InertSuffix(p: string, n: nat)
    requires Inert(p) && n <= |p|
    ensures Inert(p[n..])
  {
    var t := p[n..];
    forall i | 0 <= i < |t| && LowerChar(t[i]) == 'h' ensures i + 1 < |t| && LowerChar(t[i + 1]) != 'r' {
      assert t[i] == p[n + i];
    }
  }

  /** Whatever the body before it holds, unbalanced quotes included, the pass comes to the guarded link and keeps it. */
  lemma {:induction false} GuardedLinkSurvives(a: string, pre: string, q: nat, link: string, rest: string,
                                               edit: (string, string) -> string) returns (x: string)
    requires Guards(pre, q, link, rest, edit)
    ensures ReplaceLinks(a + (pre + link + rest), edit) == x + link + ReplaceLinks(rest, edit)
    decreases |a|
  {
    hide MatchHref;
    var t, end := pre + link + rest, ReplaceLinks(rest, edit);
    if a == "" {
      GuardPasses(pre, 0, link, rest, edit);
      assert a + t == t[0..] && pre[0..] == pre;
      return pre;
    }
    var r, x': string;
    if MatchHref(a + t).None? {
      ReplaceSkips(a, t, edit);
      r := [a[0]];
      x' := GuardedLinkSurvives(a[1..], pre, q, link, rest, edit);
    } else {
      var (b, e) := MatchHref(a + t).value;
      MatchStopsAtTag(a, t, q);
      if e < |a| {
        ReplaceInside(a, t, b, e, edit);
        r := edit(a[..e + 1], a[b..e]);
        x' := GuardedLinkSurvives(a[e + 1..], pre, q, link, rest, edit);
      } else {
        ReplaceAcross(a, t, b, e, edit);
        GuardPasses(pre, q + 1, link, rest, edit);
        r, x' := edit((a + t)[..e + 1], (a + t)[b..e]), pre[q + 1..];
      }
    }
    Regroup(r, x' + link, end);
    Regroup(r, x', link);
    return r + x';
  }

  lemma OpeningTag()
    ensures |OPENING| == 10 && OPENING[0] == '<' && IsQuote(OPENING[9]) && forall k :: 0 <= k < 9 ==> !IsQuote(OPENING[k])
    ensures 'h' !in OPENING && 'H' !in OPENING
  {
  }

  lemma HeightIsInert()
    ensures Inert("height")
  {
  }

  lemma FooterIsInert()
    ensures Inert(BEFORE_LINK)
  {
    hide Inert;
    OpeningTag();
    NoH(OPENING);
    NoH("margin-top:2em;font-size:12px;line-");
    HeightIsInert();
    NoH(":1.4;color:#666666\"><a ");
    InertAppend(OPENING, "margin-top:2em;font-size:12px;line-");
    InertAppend(OPENING + "margin-top:2em;font-size:12px;line-", "height");
    InertAppend(OPENING + "margin-top:2em;font-size:12px;line-" + "height", ":1.4;color:#666666\"><a ");
  }

  lemma {:induction false} FooterGuards(url: string, rest: string, edit: (string, string) -> string)
    requires ReplaceLinks(Link(url) + rest, edit) == Link(url) + ReplaceLinks(rest, edit)
    ensures Guards(BEFORE_LINK, 9, Link(url), rest, edit)
  {
    FooterIsInert();
    OpeningTag();
    assert forall k :: 0 <= k < 10 ==> BEFORE_LINK[k] == OPENING[k];
  }

  lemma {:induction false} TrackerKeepsFooterLink(url: string, edit: (string, string) -> string, track: string -> string)
    requires Contains(url, MARK)
    requires forall m, l :: edit(m, l) == Rewrite(m, l, track)
    ensures url != "" && edit(Link(url), Escape(url)) == Link(url)
  {
    MarkIsPlain();
    EscapeKeeps(url, MARK);
    LowerKeeps(Escape(url), MARK);
  }

  /** So tracking the clicks of a body that already has its footer does not break the unsubscribe link. */
  lemma ClickPassKeepsUnsubscribe(html: string, url: string, track: string -> string) returns (x: string)
    requires Contains(url, MARK) && html != "" && !Contains(ToLower(html), MARK)
    ensures ClickPass(AppendHtml(html, url), track)
         == x + Link(url) + ClickPass(AFTER_LINK + html[FooterPlace(html)..], track)
  {
    var i := FooterPlace(html);
    var rest := AFTER_LINK + html[i..];
    var edit := (m, link) => Rewrite(m, link, track);
    TrackerKeepsFooterLink(url, edit, track);
    LinkIsKept(url, rest, edit);
    FooterGuards(url, rest, edit);
    x := GuardedLinkSurvives(html[..i], BEFORE_LINK, 9, Link(url), rest, edit);
    hide ReplaceLinks, Guards, Contains, Link, FooterPlace;
    assert AppendHtml(html, url) == html[..i] + (BEFORE_LINK + Link(url) + rest) by { FooterInserted(html[..i], Link(url), html[i..]); }
  }

  lemma FooterInserted(a: string, link: string, b: string)
    ensures a + (BEFORE_LINK + link + AFTER_LINK) + b == a + (BEFORE_LINK + link + (AFTER_LINK + b))
  {
  }
}
