/**
  Exactly when the order in which the renderer walks its map cannot be seen. Values may hold placeholders themselves;
  what counts is whether one key's pass would act on another key's value.
 */
module TemplateOrder {
  import opened Text
  import opened Template
  import opened TemplateTurn

  // ----- Reading a value as segments -----

  /** None when the value leaves a placeholder open, ends in an opening brace, or has a placeholder with braces in its name. */
  function Parse(s: string): Option<seq<Seg>>
    decreases |s|
  {
    var i := Index(s, "{{");
    if i < 0 then (if Calm(s) then Some([Lit(s)]) else None)
    else
      var rest := s[i + 2..];
      var n := Index(rest, "}}");
      if n < 0 || !Plain(rest[..n]) then None
      else
        match Parse(rest[n + 2..])
        case None => None
        case Some(segs) => Some([Lit(s[..i]), Token(rest[..n])] + segs)
  }

  predicate WellFormed(s: string) { Parse(s).Some? }

  lemma {:induction false} BeforeFirstIsCalm(s: string)
    requires Index(s, "{{") >= 0
    ensures Calm(s[..Index(s, "{{")])
  {
    var i := Index(s, "{{");
    forall j | 0 <= j < i ensures !(s[j] == '{' && s[j + 1] == '{') {
      assert !("{{" <= s[j..]);
      assert s[j..][0] == s[j] && s[j..][1] == s[j + 1];
    }
    if i > 0 { assert s[i..i + 2][0] == '{'; }
  }

  lemma Reassemble(s: string, i: nat, n: nat)
    requires i + 2 + n + 2 <= |s| && s[i..i + 2] == "{{" && s[i + 2..][n..n + 2] == "}}"
    ensures s == s[..i] + (Braced(s[i + 2..][..n]) + s[i + 2..][n + 2..])
  {
    assert s[i + 2..] == s[i + 2..][..n] + "}}" + s[i + 2..][n + 2..];
    assert s == s[..i] + "{{" + s[i + 2..];
  }

  lemma {:induction false} FlattenTwo(x: Seg, y: Seg, segs: seq<Seg>)
    ensures Flatten([x, y] + segs) == Show(x) + (Show(y) + Flatten(segs))
    ensures PlainSeg(x) && PlainSeg(y) && PlainSegs(segs) ==> PlainSegs([x, y] + segs)
  {
    assert ([x, y] + segs)[1..] == [y] + segs;
    assert ([y] + segs)[1..] == segs;
  }

  lemma ParseSteps(s: string) returns (i: int, n: int)
    requires WellFormed(s)
    ensures i == Index(s, "{{") && (i < 0 ==> Calm(s) && Parse(s).value == [Lit(s)])
    ensures i >= 0 ==>
              && 0 <= n && i + 2 + n + 2 <= |s| && s[i..i + 2] == "{{" && s[i + 2..][n..n + 2] == "}}"
              && Plain(s[i + 2..][..n]) && WellFormed(s[i + 2..][n + 2..])
              && Parse(s).value == [Lit(s[..i]), Token(s[i + 2..][..n])] + Parse(s[i + 2..][n + 2..]).value
  {
    hide Index, Calm, Plain;
    i, n := Index(s, "{{"), 0;
    if i >= 0 { n := Index(s[i + 2..], "}}"); }
  }

  lemma {:induction false} ParseReads(s: string)
    requires WellFormed(s)
    ensures PlainSegs(Parse(s).value) && Flatten(Parse(s).value) == s
    decreases |s|
  {
    hide Flatten, Calm, Index, Plain, Braced, Parse;
    var i, n := ParseSteps(s);
    if i < 0 {
      FlattenLit(s);
    } else {
      ParseReads(s[i + 2..][n + 2..]);
      BeforeFirstIsCalm(s);
      Reassemble(s, i, n);
      FlattenTwo(Lit(s[..i]), Token(s[i + 2..][..n]), Parse(s[i + 2..][n + 2..]).value);
    }
  }

  lemma FlattenLit(s: string)
    ensures Flatten([Lit(s)]) == s
  {
    assert Flatten([Lit(s)]) == s + Flatten([]);
  }

  lemma CalmStartsNone(t: string, u: string, j: nat)
    requires Calm(t) && j < |t|
    ensures !("{{" <= (t + u)[j..])
  {
    var s := t + u;
    assert s[j..][0] == t[j] && (j + 1 < |s| ==> s[j..][1] == s[j + 1]);
  }

  lemma DropBehind(t: string, u: string, j: nat)
    requires |t| <= j <= |t| + |u|
    ensures (t + u)[j..] == u[j - |t|..]
  {
  }

  lemma {:induction false} CalmBeforeIndex(t: string, u: string)
    requires Calm(t)
    ensures Index(t + u, "{{") == if Index(u, "{{") < 0 then -1 else |t| + Index(u, "{{")
  {
    hide Index, Calm;
    var s, i := t + u, Index(u, "{{");
    forall j | 0 <= j < |t| ensures !("{{" <= s[j..]) {
      CalmStartsNone(t, u, j);
    }
    forall j | |t| <= j <= |s| ensures s[j..] == u[j - |t|..] {
      DropBehind(t, u, j);
    }
    if i < 0 {
      IndexAbsent(s, "{{");
    } else {
      assert s[|t| + i..|t| + i + 2] == u[i..i + 2];
      IndexIs(s, "{{", |t| + i);
    }
  }

  lemma {:induction false} ParsesBehind(s: string, u: string)
    requires WellFormed(u) && Index(u, "{{") >= 0 && Index(s, "{{") >= 0
    requires s[Index(s, "{{") + 2..] == u[Index(u, "{{") + 2..]
    ensures WellFormed(s)
  {
    hide Index, Plain;
  }

  lemma {:induction false} ParsesToken(s: string, n: nat)
    requires Index(s, "{{") == 0 && n == Index(s[2..], "}}") && Plain(s[2..][..n]) && WellFormed(s[2..][n + 2..])
    ensures WellFormed(s)
  {
    hide Index, Plain;
  }

  lemma CalmAppend(t: string, u: string)
    requires Calm(t) && Calm(u)
    ensures Calm(t + u)
  {
    var s := t + u;
    assert forall i :: 0 <= i < |s| ==> s[i] == if i < |t| then t[i] else u[i - |t|];
  }

  lemma CalmJoins(t: string, u: string)
    requires Calm(t) && WellFormed(u)
    ensures WellFormed(t + u)
  {
    CalmBeforeIndex(t, u);
    if Index(u, "{{") >= 0 {
      DropsAlike(t, u, Index(u, "{{") + 2);
      ParsesBehind(t + u, u);
    } else {
      CalmAppend(t, u);
    }
  }

  lemma DropsAlike(t: string, u: string, n: nat)
    requires n <= |u|
    ensures (t + u)[|t| + n..] == u[n..]
  {
  }

  lemma TokenShape(r: string, u: string)
    ensures var s := Braced(r) + u;
            |s| >= |r| + 4 && s[0..2] == "{{" && s[2..] == r + "}}" + u
            && s[2..][..|r|] == r && s[2..][|r|..|r| + 2] == "}}" && s[2..][|r| + 2..] == u
  {
  }

  lemma NoCloseBefore(r: string, rest: string)
    requires Plain(r) && r <= rest
    ensures forall j :: 0 <= j < |r| ==> !("}}" <= rest[j..])
  {
    forall j | 0 <= j < |r| ensures !("}}" <= rest[j..]) {
      assert rest[j..][0] == r[j];
    }
  }

  lemma TokenJoins(r: string, u: string)
    requires Plain(r) && WellFormed(u)
    ensures WellFormed(Braced(r) + u)
  {
    hide Index, Parse, Braced, Plain;
    var s := Braced(r) + u;
    TokenShape(r, u);
    IndexIs(s, "{{", 0);
    NoCloseBefore(r, s[2..]);
    IndexIs(s[2..], "}}", |r|);
    ParsesToken(s, |r|);
  }

  /** What is put together from calm text and placeholders is well-formed, and nothing else is. */
  lemma {:induction false} WellFormedIff(s: string)
    ensures WellFormed(s) <==> exists segs :: PlainSegs(segs) && Flatten(segs) == s
  {
    if WellFormed(s) { ParseReads(s); }
    forall segs | PlainSegs(segs) && Flatten(segs) == s ensures WellFormed(s) {
      SegsAreWellFormed(segs);
    }
  }

  lemma {:induction false} SegsAreWellFormed(segs: seq<Seg>)
    requires PlainSegs(segs)
    ensures WellFormed(Flatten(segs))
  {
    if segs == [] {
      assert Index("", "{{") == -1;
    } else {
      SegsAreWellFormed(segs[1..]);
      match segs[0]
      case Lit(t) => CalmJoins(t, Flatten(segs[1..]));
      case Token(r) => TokenJoins(r, Flatten(segs[1..]));
    }
  }

  // ----- Replacing a token by segments -----

  function Splice(segs: seq<Seg>, raw: string, sub: seq<Seg>): seq<Seg> {
    if segs == [] then [] else (if segs[0] == Token(raw) then sub else [segs[0]]) + Splice(segs[1..], raw, sub)
  }

  predicate Has(segs: seq<Seg>, raw: string) { Token(raw) in segs }

  lemma {:induction false} FlattenAppend(a: seq<Seg>, b: seq<Seg>)
    ensures Flatten(a + b) == Flatten(a) + Flatten(b)
  {
    hide Show;
    if a == [] {
      assert a + b == b;
    } else {
      FlattenAppend(a[1..], b);
      TailOfSum(a, b);
      Regroup(Show(a[0]), Flatten(a[1..]), Flatten(b));
    }
  }

  lemma {:induction false} SpliceIsReplace(segs: seq<Seg>, raw: string, sub: seq<Seg>)
    requires PlainSegs(segs) && PlainSegs(sub) && Plain(raw)
    ensures PlainSegs(Splice(segs, raw, sub))
    ensures Flatten(Splice(segs, raw, sub)) == ReplaceAll(Flatten(segs), Braced(raw), Flatten(sub))
  {
    ReplaceIsFill(segs, raw, Flatten(sub));
    SpliceIsFill(segs, raw, sub);
  }

  lemma {:induction false} SpliceIsFill(segs: seq<Seg>, raw: string, sub: seq<Seg>)
    requires PlainSegs(segs) && PlainSegs(sub)
    ensures PlainSegs(Splice(segs, raw, sub))
    ensures Flatten(Splice(segs, raw, sub)) == Flatten(Fill(segs, raw, Flatten(sub)))
  {
    if segs != [] {
      SpliceIsFill(segs[1..], raw, sub);
      var head := if segs[0] == Token(raw) then sub else [segs[0]];
      FlattenAppend(head, Splice(segs[1..], raw, sub));
      assert Fill(segs, raw, Flatten(sub))[1..] == Fill(segs[1..], raw, Flatten(sub));
      assert Flatten([segs[0]]) == Show(segs[0]) + Flatten([]);
    }
  }

  lemma {:induction false} SpliceHas(segs: seq<Seg>, raw: string, sub: seq<Seg>, q: string)
    ensures Has(Splice(segs, raw, sub), q) <==> (q != raw && Has(segs, q)) || (Has(segs, raw) && Has(sub, q))
  {
    if segs != [] {
      SpliceHas(segs[1..], raw, sub, q);
      assert segs == [segs[0]] + segs[1..];
    }
  }

  lemma SliceBehind(h: string, u: string, i: nat, j: nat)
    requires i <= j <= |u|
    ensures (h + u)[|h| + i..|h| + j] == u[i..j]
  {
  }

  lemma ContainsLater(h: string, u: string, p: string)
    requires Contains(u, p)
    ensures Contains(h + u, p)
  {
    hide Index;
    var j := Index(u, p);
    SliceBehind(h, u, j, j + |p|);
    ContainsAt(h + u, p, |h| + j);
  }

  lemma {:induction false} HasOccurs(segs: seq<Seg>, raw: string)
    requires Has(segs, raw)
    ensures Contains(Flatten(segs), Braced(raw)) && |Flatten(segs)| >= |Braced(raw)|
    ensures |Flatten(segs)| == |Braced(raw)| ==> Flatten(segs) == Braced(raw)
  {
    assert segs == [segs[0]] + segs[1..];
    var p, u := Braced(raw), Flatten(segs[1..]);
    if segs[0] == Token(raw) {
      assert (p + u)[0..|p|] == p;
      ContainsAt(p + u, p, 0);
    } else {
      HasOccurs(segs[1..], raw);
      ContainsLater(Show(segs[0]), u, p);
    }
  }

  lemma {:induction false} ErasingShortens(s: string, p: string)
    requires p != ""
    ensures |ReplaceAll(s, p, "")| <= |s|
    ensures Contains(s, p) ==> |ReplaceAll(s, p, "")| < |s|
  {
    if s != "" { ErasingShortens(if p <= s then s[|p|..] else s[1..], p); }
  }

  lemma {:induction false} HasIsContains(segs: seq<Seg>, raw: string)
    requires PlainSegs(segs) && Plain(raw)
    ensures Has(segs, raw) <==> Contains(Flatten(segs), Braced(raw))
  {
    if Has(segs, raw) {
      HasOccurs(segs, raw);
    } else {
      ReplaceIsFill(segs, raw, "");
      assert Fill(segs, raw, "") == segs;
      ErasingShortens(Flatten(segs), Braced(raw));
    }
  }

  function Turn(segs: seq<Seg>, k: string, sub: seq<Seg>): seq<Seg> { Splice(Splice(segs, k, sub), Pad(k), sub) }

  lemma {:induction false} TurnIsRenderKey(segs: seq<Seg>, k: string, sub: seq<Seg>)
    requires PlainSegs(segs) && PlainSegs(sub) && Plain(k)
    ensures PlainSegs(Turn(segs, k, sub)) && Flatten(Turn(segs, k, sub)) == RenderKey(Flatten(segs), k, Flatten(sub))
  {
    PadDiffers(k);
    SpliceIsReplace(segs, k, sub);
    SpliceIsReplace(Splice(segs, k, sub), Pad(k), sub);
  }

  // ----- Turns that meet one token -----

  /** What key k's turn makes of its own token. */
  function OwnText(k: string, v: string): string { ReplaceAll(v, Braced(Pad(k)), v) }

  lemma LoneToken(raw: string, k: string, v: string)
    requires Plain(raw) && Plain(k)
    ensures RenderKey(Braced(raw), k, v) == if raw == k then OwnText(k, v) else if raw == Pad(k) then v else Braced(raw)
  {
    PadDiffers(k);
    if raw == k {
      TokenIsReplaced(raw, "", v);
    } else {
      OtherTokenIsKept(k, raw, "", v);
      if raw == Pad(k) { TokenIsReplaced(raw, "", v); } else { OtherTokenIsKept(Pad(k), raw, "", v); }
    }
    assert Braced(raw) + "" == Braced(raw) && v + "" == v;
  }

  /** Its own token's text holds the same placeholders as the value itself. */
  lemma OwnTextHas(k: string, v: string, raw: string)
    requires Plain(k) && WellFormed(v) && Plain(raw)
    ensures WellFormed(OwnText(k, v))
    ensures Contains(OwnText(k, v), Braced(raw)) <==> Contains(v, Braced(raw))
  {
    ParseReads(v);
    PadDiffers(k);
    var sub := Parse(v).value;
    var own := Splice(sub, Pad(k), sub);
    SpliceIsReplace(sub, Pad(k), sub);
    SegsAreWellFormed(own);
    SpliceHas(sub, Pad(k), sub, raw);
    HasIsContains(sub, raw);
    HasIsContains(own, raw);
  }

  lemma OwnTextIsReachedAlike(a: string, v: string, k: string, w: string)
    requires Plain(a) && Plain(k) && WellFormed(v)
    ensures WellFormed(OwnText(a, v)) && (Reaches(OwnText(a, v), k, w) <==> Reaches(v, k, w))
  {
    hide OwnText, WellFormed, Contains;
    PadDiffers(k);
    OwnTextHas(a, v, k);
    OwnTextHas(a, v, Pad(k));
  }

  /** A placeholder that key k does not name outlives its turn. */
  lemma TurnSpares(v: string, k: string, w: string, raw: string)
    requires WellFormed(v) && WellFormed(w) && Plain(k) && Plain(raw) && !Names(k, raw)
    requires Contains(v, Braced(raw))
    ensures Contains(RenderKey(v, k, w), Braced(raw))
  {
    hide Flatten, Contains, ReplaceAll;
    ParseReads(v);
    ParseReads(w);
    var segs, sub := Parse(v).value, Parse(w).value;
    HasIsContains(segs, raw);
    SpliceHas(segs, k, sub, raw);
    SpliceHas(Splice(segs, k, sub), Pad(k), sub, raw);
    TurnIsRenderKey(segs, k, sub);
    HasIsContains(Turn(segs, k, sub), raw);
  }

  // ----- Maps -----

  predicate PlainKeys(vars: map<string, string>) {
    forall k :: k in vars ==> Plain(k)
  }

  predicate WellFormedVars(vars: map<string, string>) {
    forall k :: k in vars ==> Plain(k) && WellFormed(vars[k])
  }

  /** Rendering some key would change another key's value. */
  predicate Tangled(vars: map<string, string>) {
    exists a, k :: a in vars && k in vars && a != k && Reaches(vars[a], k, vars[k])
  }

  ghost predicate OrderIndependent(vars: map<string, string>) {
    forall segs, o1, o2 ::
      PlainSegs(segs) && IsOrder(o1, vars.Keys) && IsOrder(o2, vars.Keys)
      ==> RenderIn(Flatten(segs), o1, vars) == RenderIn(Flatten(segs), o2, vars)
  }

  lemma {:induction false} OrderExists(keys: set<string>) returns (order: seq<string>)
    ensures IsOrder(order, keys)
    decreases |keys|
  {
    if keys == {} {
      order := [];
    } else {
      var k :| k in keys;
      var rest := OrderExists(keys - {k});
      order := [k] + rest;
    }
  }

  lemma IsOrderSnoc(rest: seq<string>, k: string, keys: set<string>)
    requires k in keys && IsOrder(rest, keys - {k})
    ensures IsOrder(rest + [k], keys)
  {
  }

  lemma {:induction false} RenderSnoc(html: string, order: seq<string>, k: string, vars: map<string, string>)
    requires k in vars && forall q :: q in order ==> q in vars
    ensures (forall q :: q in order + [k] ==> q in vars)
         && RenderIn(html, order + [k], vars) == RenderKey(RenderIn(html, order, vars), k, vars[k])
  {
    assert (order + [k])[..|order|] == order;
  }

  lemma {:induction false} KeptByAll(html: string, order: seq<string>, vars: map<string, string>)
    requires forall k :: k in order ==> k in vars && RenderKey(html, k, vars[k]) == html
    ensures RenderIn(html, order, vars) == html
  {
    hide RenderKey;
    if order != [] {
      KeptByAll(html, order[..|order| - 1], vars);
      assert order[|order| - 1] in order;
    }
  }

  function Turn2(x: string, a: string, k: string, vars: map<string, string>): string
    requires a in vars && k in vars
  {
    RenderKey(RenderKey(Braced(x), a, vars[a]), k, vars[k])
  }

  /** Any two keys can take the last two turns, either way round. */
  lemma PairLast(keys: set<string>, a: string, k: string) returns (rest: seq<string>)
    requires a in keys && k in keys && a != k
    ensures IsOrder(rest, keys - {a, k})
    ensures IsOrder(rest + [a] + [k], keys) && IsOrder(rest + [k] + [a], keys)
  {
    rest := OrderExists(keys - {a, k});
    assert keys - {a, k} == keys - {a} - {k} == keys - {k} - {a};
    IsOrderSnoc(rest, a, keys - {k});
    IsOrderSnoc(rest, k, keys - {a});
    IsOrderSnoc(rest + [a], k, keys);
    IsOrderSnoc(rest + [k], a, keys);
  }

  /** If the order cannot be seen, two keys that alone act on a template may take their turns either way round. */
  lemma {:induction false} TurnsCommute(vars: map<string, string>, segs: seq<Seg>, a: string, k: string)
    requires OrderIndependent(vars) && PlainSegs(segs) && a in vars && k in vars && a != k
    requires forall q :: q in vars && q != a && q != k ==> RenderKey(Flatten(segs), q, vars[q]) == Flatten(segs)
    ensures RenderKey(RenderKey(Flatten(segs), a, vars[a]), k, vars[k])
         == RenderKey(RenderKey(Flatten(segs), k, vars[k]), a, vars[a])
  {
    hide RenderKey, Flatten, PlainSegs;
    var html := Flatten(segs);
    var rest := PairLast(vars.Keys, a, k);
    KeptByAll(html, rest, vars);
    RenderSnoc(html, rest, a, vars);
    RenderSnoc(html, rest + [a], k, vars);
    RenderSnoc(html, rest, k, vars);
    RenderSnoc(html, rest + [k], a, vars);
    OrdersAgree(vars, segs, rest + [a] + [k], rest + [k] + [a]);
  }

  lemma {:induction false} OrdersAgree(vars: map<string, string>, segs: seq<Seg>, o1: seq<string>, o2: seq<string>)
    requires OrderIndependent(vars) && PlainSegs(segs) && IsOrder(o1, vars.Keys) && IsOrder(o2, vars.Keys)
    ensures RenderIn(Flatten(segs), o1, vars) == RenderIn(Flatten(segs), o2, vars)
  {
  }

  lemma PairCommutes(vars: map<string, string>, x: string, a: string, k: string)
    requires OrderIndependent(vars) && PlainKeys(vars) && Plain(x)
    requires a in vars && k in vars && a != k && forall q :: q in vars && Names(q, x) ==> q == a || q == k
    ensures Turn2(x, a, k, vars) == Turn2(x, k, a, vars)
  {
    hide RenderKey, OrderIndependent, Names;
    var segs := [Token(x)];
    assert Flatten(segs) == Braced(x) + Flatten([]) == Braced(x);
    assert PlainSegs(segs);
    forall q | q in vars && q != a && q != k ensures RenderKey(Braced(x), q, vars[q]) == Braced(x) {
      UnnamedStays(x, q, vars[q]);
    }
    TurnsCommute(vars, segs, a, k);
  }

  lemma UnnamedStays(x: string, q: string, v: string)
    requires Plain(x) && Plain(q) && !Names(q, x)
    ensures RenderKey(Braced(x), q, v) == Braced(x)
  {
    LoneToken(x, q, v);
  }

  // ----- If the order cannot be seen, nothing is tangled -----

  /** What key a's turn made of a token holds k's placeholder, so k would change it. */
  lemma ReachedThrough(v: string, a: string, va: string, k: string, w: string)
    requires WellFormed(v) && WellFormed(va) && Plain(a) && Plain(k) && Reaches(v, k, w)
    requires !Names(a, k) && !Names(a, Pad(k))
    ensures Reaches(RenderKey(v, a, va), k, w)
  {
    hide Contains, RenderKey, WellFormed;
    PadDiffers(k);
    if Contains(v, Braced(k)) { TurnSpares(v, a, va, k); }
    if Contains(v, Braced(Pad(k))) { TurnSpares(v, a, va, Pad(k)); }
  }

  /** With `u` the key that a is the padded form of: from the shortest key up, no value is changed by a key as long. */
  lemma {:induction false} LongerKeysSpare(vars: map<string, string>, a: string, k: string)
    requires OrderIndependent(vars) && WellFormedVars(vars)
    requires a in vars && k in vars && a != k && |k| >= |a|
    ensures !Reaches(vars[a], k, vars[k])
    decreases |a|
  {
    hide OrderIndependent, RenderKey, Reaches, WellFormed, OwnText;
    PadDiffers(k);
    var own := OwnText(a, vars[a]);
    OwnTextIsReachedAlike(a, vars[a], k, vars[k]);
    LoneToken(a, a, vars[a]);
    if u :| u in vars && Pad(u) == a {
      PadDiffers(u);
      LongerKeysSpare(vars, u, a);
      LongerKeysSpare(vars, u, k);
      KeepsIff(vars[u], a, vars[a]);
      forall q | q in vars && Names(q, a) ensures q == u || q == a { PadIsInjective(q, u); }
      PairCommutes(vars, a, u, a);
      LoneToken(a, u, vars[u]);
      assert RenderKey(own, u, vars[u]) == vars[u];
      if Reaches(own, k, vars[k]) { ReachedThrough(own, u, vars[u], k, vars[k]); }
    } else {
      PairCommutes(vars, a, a, k);
      LoneToken(a, k, vars[k]);
      KeepsIff(own, k, vars[k]);
    }
  }

  lemma PadIsInjective(p: string, q: string)
    ensures Pad(p) == Pad(q) ==> p == q
  {
    assert Pad(p)[1..|Pad(p)| - 1] == p && Pad(q)[1..|Pad(q)| - 1] == q;
  }

  /** And from the longest key down, by a key as short. */
  lemma {:induction false} ShorterKeysSpare(vars: map<string, string>, a: string, k: string, bound: nat)
    requires OrderIndependent(vars) && WellFormedVars(vars) && forall q :: q in vars ==> |q| <= bound
    requires a in vars && k in vars && a != k && |k| <= |a|
    ensures !Reaches(vars[a], k, vars[k])
    decreases bound - |a|
  {
    hide OrderIndependent, RenderKey, Reaches, WellFormed, OwnText;
    PadDiffers(k);
    PadDiffers(a);
    var p := Pad(a);
    PadDiffers(p);
    LoneToken(p, a, vars[a]);
    if p in vars {
      var own := OwnText(p, vars[p]);
      OwnTextIsReachedAlike(p, vars[p], k, vars[k]);
      OwnTextIsReachedAlike(p, vars[p], a, vars[a]);
      ShorterKeysSpare(vars, p, a, bound);
      ShorterKeysSpare(vars, p, k, bound);
      KeepsIff(own, a, vars[a]);
      LoneToken(p, p, vars[p]);
      forall q | q in vars && Names(q, p) ensures q == a || q == p { PadIsInjective(q, a); }
      PairCommutes(vars, p, a, p);
      assert RenderKey(vars[a], p, vars[p]) == own;
      PadIsInjective(k, a);
      if Reaches(vars[a], k, vars[k]) { ReachedThrough(vars[a], p, vars[p], k, vars[k]); }
    } else {
      forall q | q in vars && Names(q, p) ensures q == a { PadIsInjective(q, a); }
      PairCommutes(vars, p, a, k);
      PadIsInjective(k, a);
      LoneToken(p, k, vars[k]);
      KeepsIff(vars[a], k, vars[k]);
    }
  }

  lemma {:induction false} LongestKey(keys: set<string>) returns (bound: nat)
    ensures forall q :: q in keys ==> |q| <= bound
    decreases |keys|
  {
    if keys == {} {
      bound := 0;
    } else {
      var k :| k in keys;
      var rest := LongestKey(keys - {k});
      bound := if |k| > rest then |k| else rest;
    }
  }

  lemma IndependentIsUntangled(vars: map<string, string>)
    requires OrderIndependent(vars) && WellFormedVars(vars)
    ensures !Tangled(vars)
  {
    hide OrderIndependent, WellFormedVars, Reaches;
    var bound := LongestKey(vars.Keys);
    forall a, k | a in vars && k in vars && a != k ensures !Reaches(vars[a], k, vars[k]) {
      if |k| >= |a| { LongerKeysSpare(vars, a, k); } else { ShorterKeysSpare(vars, a, k, bound); }
    }
  }

  lemma OwnTextIsValue(k: string, v: string)
    requires Plain(k) && !(Contains(v, Braced(Pad(k))) && v != Braced(Pad(k)))
    ensures OwnText(k, v) == v
  {
    PadDiffers(k);
    PassKeeps(v, Pad(k), v);
  }

  lemma IndependentHasNoClash(vars: map<string, string>)
    requires OrderIndependent(vars) && WellFormedVars(vars) && !Tangled(vars)
    ensures !Clash(vars)
  {
    forall k | k in vars && Pad(k) in vars ensures vars[k] == vars[Pad(k)] {
      TwinsAgree(vars, k);
    }
  }

  lemma TwinsAgree(vars: map<string, string>, k: string)
    requires OrderIndependent(vars) && WellFormedVars(vars) && !Tangled(vars) && k in vars && Pad(k) in vars
    ensures vars[k] == vars[Pad(k)]
  {
    hide OrderIndependent, RenderKey, WellFormed, OwnText, Contains;
    var p := Pad(k);
    PadDiffers(k);
    PadDiffers(p);
    var v, w := vars[k], vars[p];
    assert !Reaches(v, p, w) && !Reaches(w, k, v);
    forall q | q in vars && Names(q, p) ensures q == k || q == p { PadIsInjective(q, k); }
    PairCommutes(vars, p, k, p);
    LoneToken(p, k, v);
    LoneToken(p, p, w);
    KeepsIff(v, p, w);
    OwnTextIsReachedAlike(p, w, k, v);
    KeepsIff(OwnText(p, w), k, v);
    assert v == OwnText(p, w);
    OwnTextHas(p, w, Pad(p));
    OwnTextIsValue(p, w);
  }

  // ----- If nothing is tangled and no twins clash, the order cannot be seen -----

  lemma FillAppend(x: seq<Seg>, y: seq<Seg>, raw: string, w: string)
    ensures Flatten(Fill(x + y, raw, w)) == Flatten(Fill(x, raw, w)) + Flatten(Fill(y, raw, w))
  {
    hide Flatten;
    assert Fill(x + y, raw, w) == Fill(x, raw, w) + Fill(y, raw, w);
    FlattenAppend(Fill(x, raw, w), Fill(y, raw, w));
  }

  lemma {:induction false} ReplaceSplits(a: string, b: string, raw: string, w: string)
    requires WellFormed(a) && WellFormed(b) && WellFormed(w) && Plain(raw)
    ensures WellFormed(a + b) && WellFormed(ReplaceAll(a, Braced(raw), w))
    ensures ReplaceAll(a + b, Braced(raw), w) == ReplaceAll(a, Braced(raw), w) + ReplaceAll(b, Braced(raw), w)
  {
    hide Flatten, ReplaceAll, Fill, Plain;
    ParseReads(a);
    ParseReads(b);
    ParseReads(w);
    var x, y, sub := Parse(a).value, Parse(b).value, Parse(w).value;
    FlattenAppend(x, y);
    SegsAreWellFormed(x + y);
    ReplaceIsFill(x, raw, w);
    ReplaceIsFill(y, raw, w);
    ReplaceIsFill(x + y, raw, w);
    FillAppend(x, y, raw, w);
    SpliceIsReplace(x, raw, sub);
    SegsAreWellFormed(Splice(x, raw, sub));
  }

  /** A key's turn acts on each part of a text by itself. */
  lemma RenderKeySplits(a: string, b: string, k: string, w: string)
    requires WellFormed(a) && WellFormed(b) && WellFormed(w) && Plain(k)
    ensures RenderKey(a + b, k, w) == RenderKey(a, k, w) + RenderKey(b, k, w)
  {
    hide WellFormed, ReplaceAll, Plain;
    PadDiffers(k);
    ReplaceSplits(a, b, k, w);
    ReplaceSplits(b, b, k, w);
    ReplaceSplits(ReplaceAll(a, Braced(k), w), ReplaceAll(b, Braced(k), w), Pad(k), w);
  }

  /** What one segment becomes once the keys of the order have had their turns: the first key it names decides. */
  function DoneSeg(seg: Seg, order: seq<string>, vars: map<string, string>): string
    requires forall k :: k in order ==> k in vars
  {
    if seg.Token? then
      FirstKeyNames(order, seg.raw);
      match FirstKey(order, seg.raw)
      case Some(k) => if seg.raw == k then OwnText(k, vars[k]) else vars[k]
      case None => Show(seg)
    else Show(seg)
  }

  function DoneText(segs: seq<Seg>, order: seq<string>, vars: map<string, string>): string
    requires forall k :: k in order ==> k in vars
  {
    if segs == [] then "" else DoneSeg(segs[0], order, vars) + DoneText(segs[1..], order, vars)
  }

  lemma SegIsWellFormed(seg: Seg)
    requires PlainSeg(seg)
    ensures WellFormed(Show(seg)) && WellFormed("")
  {
    SegsAreWellFormed([seg]);
    SegsAreWellFormed([]);
    assert Flatten([seg]) == Show(seg) + Flatten([]) == Show(seg);
  }

  lemma {:induction false} DoneIsWellFormed(segs: seq<Seg>, order: seq<string>, vars: map<string, string>)
    requires PlainSegs(segs) && WellFormedVars(vars) && forall k :: k in order ==> k in vars
    ensures WellFormed(DoneText(segs, order, vars))
    ensures segs != [] ==> WellFormed(DoneSeg(segs[0], order, vars))
  {
    hide WellFormed, OwnText, Contains, ReplaceAll;
    if segs == [] {
      SegIsWellFormed(Lit(""));
    } else {
      DoneIsWellFormed(segs[1..], order, vars);
      SegIsWellFormed(segs[0]);
      if segs[0].Token? {
        FirstKeyNames(order, segs[0].raw);
        match FirstKey(order, segs[0].raw)
        case Some(k) => OwnTextHas(k, vars[k], k);
        case None =>
      }
      ReplaceSplits(DoneSeg(segs[0], order, vars), DoneText(segs[1..], order, vars), "", "");
    }
  }

  lemma {:induction false} CalmPass(t: string, raw: string, w: string)
    requires Calm(t)
    ensures ReplaceAll(t, Braced(raw), w) == t
  {
    CalmIsKept(t, "", raw, w);
    assert t + "" == t;
  }

  lemma CalmTurn(t: string, k: string, w: string)
    requires Calm(t)
    ensures RenderKey(t, k, w) == t
  {
    CalmPass(t, k, w);
    CalmPass(t, Pad(k), w);
  }

  lemma SegTurn(seg: Seg, order: seq<string>, k: string, vars: map<string, string>)
    requires PlainSeg(seg) && WellFormedVars(vars) && !Tangled(vars)
    requires k in vars && k !in order && forall q :: q in order ==> q in vars
    ensures RenderKey(DoneSeg(seg, order, vars), k, vars[k]) == DoneSeg(seg, order + [k], vars)
  {
    hide RenderKey, OwnText, Reaches, WellFormed, Calm;
    match seg
    case Lit(t) => CalmTurn(t, k, vars[k]);
    case Token(raw) =>
      assert (order + [k])[..|order|] == order;
      FirstKeyNames(order, raw);
      match FirstKey(order, raw) {
        case Some(a) =>
          assert !Reaches(vars[a], k, vars[k]);
          OwnTextIsReachedAlike(a, vars[a], k, vars[k]);
          KeepsIff(vars[a], k, vars[k]);
          KeepsIff(OwnText(a, vars[a]), k, vars[k]);
        case None =>
          LoneToken(raw, k, vars[k]);
      }
  }

  lemma {:induction false} TextTurn(segs: seq<Seg>, order: seq<string>, k: string, vars: map<string, string>)
    requires PlainSegs(segs) && WellFormedVars(vars) && !Tangled(vars)
    requires k in vars && k !in order && forall q :: q in order ==> q in vars
    ensures RenderKey(DoneText(segs, order, vars), k, vars[k]) == DoneText(segs, order + [k], vars)
  {
    hide RenderKey, DoneSeg, Tangled, WellFormed;
    if segs == [] {
      CalmTurn("", k, vars[k]);
    } else {
      TextTurn(segs[1..], order, k, vars);
      SegTurn(segs[0], order, k, vars);
      DoneIsWellFormed(segs, order, vars);
      DoneIsWellFormed(segs[1..], order, vars);
      RenderKeySplits(DoneSeg(segs[0], order, vars), DoneText(segs[1..], order, vars), k, vars[k]);
    }
  }

  lemma {:induction false} UntouchedText(segs: seq<Seg>, vars: map<string, string>)
    ensures DoneText(segs, [], vars) == Flatten(segs)
  {
    if segs != [] { UntouchedText(segs[1..], vars); }
  }

  /** In whatever order, each token becomes what the first key that names it makes of it, once and for all. */
  lemma {:induction false} RenderIsDone(segs: seq<Seg>, order: seq<string>, vars: map<string, string>)
    requires PlainSegs(segs) && WellFormedVars(vars) && !Tangled(vars)
    requires forall k :: k in order ==> k in vars
    requires forall i, j :: 0 <= i < j < |order| ==> order[i] != order[j]
    ensures RenderIn(Flatten(segs), order, vars) == DoneText(segs, order, vars)
  {
    hide RenderKey, DoneText, Tangled, WellFormed, Flatten;
    if order == [] {
      UntouchedText(segs, vars);
    } else {
      var front, k := order[..|order| - 1], order[|order| - 1];
      RenderIsDone(segs, front, vars);
      TextTurn(segs, front, k, vars);
      assert front + [k] == order;
    }
  }

  lemma DoneSegAlike(seg: Seg, o1: seq<string>, o2: seq<string>, vars: map<string, string>)
    requires WellFormedVars(vars) && !Tangled(vars) && !Clash(vars)
    requires IsOrder(o1, vars.Keys) && IsOrder(o2, vars.Keys)
    ensures DoneSeg(seg, o1, vars) == DoneSeg(seg, o2, vars)
  {
    hide OwnText, WellFormed, Contains;
    if seg.Token? {
      var raw := seg.raw;
      FirstKeyNames(o1, raw);
      FirstKeyNames(o2, raw);
      if raw in vars {
        forall u | u in vars && Pad(u) == raw ensures OwnText(raw, vars[raw]) == vars[u] {
          PadDiffers(u);
          assert !Reaches(vars[u], raw, vars[raw]);
          OwnTextIsValue(raw, vars[raw]);
        }
      } else {
        forall u, q | u in vars && q in vars && Pad(u) == raw && Pad(q) == raw ensures u == q { PadIsInjective(u, q); }
      }
    }
  }

  lemma {:induction false} DoneAlike(segs: seq<Seg>, o1: seq<string>, o2: seq<string>, vars: map<string, string>)
    requires WellFormedVars(vars) && !Tangled(vars) && !Clash(vars)
    requires IsOrder(o1, vars.Keys) && IsOrder(o2, vars.Keys)
    ensures DoneText(segs, o1, vars) == DoneText(segs, o2, vars)
  {
    hide DoneSeg, Tangled, Clash, WellFormed;
    if segs != [] {
      DoneSegAlike(segs[0], o1, o2, vars);
      DoneAlike(segs[1..], o1, o2, vars);
    }
  }

  // ----- Both directions -----

  /**
    Every template renders the same in every order if and only if no key clashes with its padded form, and rendering
    one key would never change another key's value.
   */
  lemma OrderIndependentIff(vars: map<string, string>)
    requires WellFormedVars(vars)
    ensures OrderIndependent(vars) <==> !Clash(vars) && !Tangled(vars)
  {
    hide Clash, Tangled, Flatten, RenderIn;
    if OrderIndependent(vars) {
      IndependentIsUntangled(vars);
      IndependentHasNoClash(vars);
    }
    if !Clash(vars) && !Tangled(vars) {
      forall segs, o1, o2 | PlainSegs(segs) && IsOrder(o1, vars.Keys) && IsOrder(o2, vars.Keys)
        ensures RenderIn(Flatten(segs), o1, vars) == RenderIn(Flatten(segs), o2, vars)
      {
        RenderIsDone(segs, o1, vars);
        RenderIsDone(segs, o2, vars);
        DoneAlike(segs, o1, o2, vars);
      }
    }
  }

  /** For any values at all, a key whose turn changes what another key's token became makes the order visible. */
  lemma ChangedTextShowsOrder(vars: map<string, string>, a: string, k: string)
    requires PlainKeys(vars) && a in vars && k in vars && a != k && forall q :: q in vars ==> Pad(q) != a
    requires RenderKey(OwnText(a, vars[a]), k, vars[k]) != OwnText(a, vars[a])
    ensures !OrderIndependent(vars)
  {
    hide OrderIndependent, RenderKey, OwnText;
    if OrderIndependent(vars) {
      PairCommutes(vars, a, a, k);
      LoneToken(a, a, vars[a]);
      LoneToken(a, k, vars[k]);
    }
  }

  lemma CalmHoldsNone(v: string, raw: string)
    requires Calm(v)
    ensures !Contains(v, Braced(raw))
  {
    CalmPass(v, raw, "");
    ErasingShortens(v, Braced(raw));
  }

  /** For values without a pair of opening braces, clashing keys are all there is to see. */
  lemma OrderIndependentIffNoClash(vars: map<string, string>)
    requires PlainVars(vars)
    ensures OrderIndependent(vars) <==> !Clash(vars)
  {
    forall k | k in vars ensures WellFormed(vars[k]) {
      SegIsWellFormed(Lit(vars[k]));
    }
    forall a, k | a in vars && k in vars ensures !Reaches(vars[a], k, vars[k]) {
      CalmHoldsNone(vars[a], k);
      CalmHoldsNone(vars[a], Pad(k));
    }
    OrderIndependentIff(vars);
  }

  predicate Apart(a: string, b: string) { !Names(a, b) && !Names(b, a) }

  lemma {:induction false} RenderThree(html: string, a: string, b: string, c: string, vars: map<string, string>)
    requires a in vars && b in vars && c in vars
    ensures RenderIn(html, [a, b, c], vars)
         == RenderKey(RenderKey(RenderKey(html, a, vars[a]), b, vars[b]), c, vars[c])
  {
    hide RenderKey;
    RenderSnoc(html, [], a, vars);
    RenderSnoc(html, [a], b, vars);
    RenderSnoc(html, [a, b], c, vars);
    assert [] + [a] == [a] && [a] + [b] == [a, b] && [a, b] + [c] == [a, b, c];
  }

  /** With one key's value the placeholder of another, the output tells which of the two had its turn first. */
  lemma BracedValueShowsOrder(a: string, b: string, x: string)
    requires Plain(a) && Plain(b) && Apart(a, b) && Calm(x)
    ensures var vars := map[a := Braced(b), b := x];
            !Clash(vars)
            && RenderIn(Braced(a), [a, b], vars) == x
            && RenderIn(Braced(a), [b, a], vars) == Braced(b)
  {
    hide RenderKey, ReplaceAll;
    var vars := map[a := Braced(b), b := x];
    PadDiffers(a);
    PadDiffers(b);
    RenderPair(Braced(a), a, b, vars);
    RenderPair(Braced(a), b, a, vars);
    LoneToken(a, a, Braced(b));
    LoneTokenIsKept(Pad(a), b, Braced(b));
    LoneToken(b, b, x);
    LoneToken(a, b, x);
    CalmPass(x, Pad(b), x);
  }

  lemma NotAtOpening(w: string, c: string, raw: string)
    requires Plain(w) && Plain(c) && Plain(raw)
    ensures !(Braced(raw) <= "{{" + w + Braced(c)) && !(Braced(raw) <= "{" + w + Braced(c))
  {
    var pat, s := Braced(raw), "{{" + w + Braced(c);
    assert pat[2 + |raw|] == '}' && forall i :: 0 <= i < |raw| ==> pat[2 + i] == raw[i];
    assert s[2 + |w|] == '{' && forall i :: 0 <= i < |w| ==> s[2 + i] == w[i];
    var tail := "{" + w + Braced(c);
    assert pat[1] == '{' && tail[1] == (w + "{")[0];
    assert w == "" ==> tail[2] == '{' && pat[2] == (raw + "}")[0];
  }

  /** An open placeholder before another token is passed over. */
  lemma {:induction false} OpenIsKept(w: string, c: string, raw: string, v: string)
    requires Plain(w) && Plain(c) && Plain(raw)
    ensures ReplaceAll("{{" + w + Braced(c), Braced(raw), v) == "{{" + w + ReplaceAll(Braced(c), Braced(raw), v)
  {
    NotAtOpening(w, c, raw);
    CalmIsKept(w, Braced(c), raw, v);
    hide Braced, Plain;
    var s, tail := "{{" + w + Braced(c), "{" + w + Braced(c);
    assert s[0] == '{' && s[1..] == tail && tail[0] == '{' && tail[1..] == w + Braced(c);
    var done := ReplaceAll(Braced(c), Braced(raw), v);
    assert ReplaceAll(s, Braced(raw), v) == "{" + ("{" + (w + done));
  }

  lemma {:induction false} OpenTurn(w: string, c: string, k: string, v: string)
    requires Plain(w) && Plain(c) && Plain(k)
    ensures RenderKey("{{" + w + Braced(c), k, v) ==
            if c == k then ReplaceAll("{{" + w + v, Braced(Pad(k)), v)
            else if c == Pad(k) then "{{" + w + v
            else "{{" + w + Braced(c)
  {
    hide ReplaceAll, Braced, Plain;
    PadDiffers(k);
    OpenIsKept(w, c, k, v);
    OpenIsKept(w, c, Pad(k), v);
    if c == k {
      TokenOnly(c, v);
    } else {
      LoneTokenIsKept(k, c, v);
      if c == Pad(k) { TokenOnly(c, v); } else { LoneTokenIsKept(Pad(k), c, v); }
    }
  }

  lemma TwoTokensKept(a: string, c: string, k: string, v: string)
    requires Plain(a) && Plain(c) && Plain(k) && !Names(k, a) && !Names(k, c)
    ensures RenderKey(Braced(a) + Braced(c), k, v) == Braced(a) + Braced(c)
  {
    hide ReplaceAll, Braced, Plain;
    PadDiffers(k);
    OtherTokenIsKept(k, a, Braced(c), v);
    LoneTokenIsKept(k, c, v);
    OtherTokenIsKept(Pad(k), a, Braced(c), v);
    LoneTokenIsKept(Pad(k), c, v);
  }

  lemma FirstTokenTurn(a: string, c: string, w: string)
    requires Plain(a) && Plain(c) && Plain(w) && Apart(a, c)
    ensures RenderKey(Braced(a) + Braced(c), a, "{{" + w) == "{{" + w + Braced(c)
  {
    hide ReplaceAll, Braced, Plain;
    PadDiffers(a);
    TokenIsReplaced(a, Braced(c), "{{" + w);
    LoneTokenIsKept(a, c, "{{" + w);
    OpenIsKept(w, c, Pad(a), "{{" + w);
    LoneTokenIsKept(Pad(a), c, "{{" + w);
  }

  function JointVars(a: string, b: string, c: string, w1: string, w2: string, x: string): map<string, string> {
    map[a := "{{" + w1, b := x, c := w2 + "}}"]
  }

  /**
    For values that leave a placeholder open the two conditions are not enough: here they hold, no value spells a
    placeholder, and yet two values that meet in the template spell one between them.
   */
  lemma JointBracesShowOrder(a: string, b: string, c: string, w1: string, w2: string, x: string)
    requires Plain(a) && Plain(b) && Plain(c) && Apart(a, b) && Apart(b, c) && Apart(a, c)
    requires b == w1 + w2 && Calm(x)
    ensures var vars, html := JointVars(a, b, c, w1, w2, x), Flatten([Token(a), Token(c)]);
            && !Clash(vars) && (forall k, raw :: k in vars ==> !Contains(vars[k], Braced(raw)))
            && RenderIn(html, [a, c, b], vars) == x
            && RenderIn(html, [b, a, c], vars) == Braced(b)
  {
    hide RenderKey, ReplaceAll, Contains;
    var vars, html := JointVars(a, b, c, w1, w2, x), Braced(a) + Braced(c);
    FlattenTwo(Token(a), Token(c), []);
    assert [Token(a), Token(c)] + [] == [Token(a), Token(c)] && Braced(c) + "" == Braced(c);
    PadDiffers(a);
    PadDiffers(b);
    PadDiffers(c);
    assert Plain(w1) by { assert forall i :: 0 <= i < |w1| ==> w1[i] == b[i]; }
    RenderThree(html, a, c, b, vars);
    RenderThree(html, b, a, c, vars);
    FirstTokenTurn(a, c, w1);
    ClosedTurn(b, c, w1, w2);
    LoneToken(b, b, x);
    CalmPass(x, Pad(b), x);
    TwoTokensKept(a, c, b, x);
    JointSpellNone(a, b, c, w1, w2, x);
  }

  lemma ClosedTurn(b: string, c: string, w1: string, w2: string)
    requires Plain(b) && Plain(c) && Plain(w1) && b == w1 + w2 && Apart(b, c)
    ensures RenderKey("{{" + w1 + Braced(c), c, w2 + "}}") == Braced(b)
  {
    hide ReplaceAll;
    PadDiffers(c);
    OpenTurn(w1, c, c, w2 + "}}");
    assert "{{" + w1 + (w2 + "}}") == Braced(b);
    LoneTokenIsKept(Pad(c), b, w2 + "}}");
  }

  lemma JointSpellNone(a: string, b: string, c: string, w1: string, w2: string, x: string)
    requires Plain(w1) && Plain(w2) && Calm(x)
    ensures var vars := JointVars(a, b, c, w1, w2, x);
            forall k, raw :: k in vars ==> !Contains(vars[k], Braced(raw))
  {
    hide Contains;
    var vars := JointVars(a, b, c, w1, w2, x);
    forall k, raw | k in vars ensures !Contains(vars[k], Braced(raw)) {
      if vars[k] == "{{" + w1 {
        OpenHoldsNone(w1, raw);
      } else {
        CalmHoldsNone(vars[k], raw);
      }
    }
  }

  lemma OpenHoldsNone(w: string, raw: string)
    requires Plain(w)
    ensures !Contains("{{" + w, Braced(raw))
  {
    var v, p := "{{" + w, Braced(raw);
    assert p[|p| - 1] == '}' && '}' !in v;
    if Contains(v, p) { ContainsChar(v, p, '}'); }
  }
}
