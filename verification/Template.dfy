/**
  Placeholder rendering: repeated in-place string replacement, one map key at a time in
  whatever order the map yields them, against one simultaneous substitution on segments.
 */
module Template {
  import opened Text

  // ----- The string rewriting -----

  function Pad(k: string): string { " " + k + " " }

  function Braced(raw: string): string { "{{" + raw + "}}" }

  /** One key's turn: the tight form first, then the form with one space on each side. */
  function RenderKey(s: string, k: string, v: string): string {
    ReplaceAll(ReplaceAll(s, Braced(k), v), Braced(Pad(k)), v)
  }

  function RenderIn(html: string, order: seq<string>, vars: map<string, string>): string
    requires forall k :: k in order ==> k in vars
  {
    if order == [] then html
    else
      var k := order[|order| - 1];
      RenderKey(RenderIn(html, order[..|order| - 1], vars), k, vars[k])
  }

  /** An order in which a map with these keys can be walked: every key once. */
  ghost predicate IsOrder(order: seq<string>, keys: set<string>) {
    && (forall k :: k in order <==> k in keys)
    && (forall i, j :: 0 <= i < j < |order| ==> order[i] != order[j])
  }

  // ----- Segments and their meaning -----

  datatype Seg = Lit(text: string) | Token(raw: string)

  predicate Plain(s: string) { '{' !in s && '}' !in s }

  /** No two opening braces in a row, and none at the end that another could join: single braces are fine. */
  predicate Calm(s: string) {
    && (forall i :: 0 <= i < |s| - 1 && s[i] == '{' ==> s[i + 1] != '{')
    && (s != "" ==> s[|s| - 1] != '{')
  }

  predicate PlainSeg(seg: Seg) {
    match seg case Lit(t) => Calm(t) case Token(r) => Plain(r)
  }

  predicate PlainSegs(segs: seq<Seg>) {
    forall i :: 0 <= i < |segs| ==> PlainSeg(segs[i])
  }

  predicate PlainVars(vars: map<string, string>) {
    forall k :: k in vars ==> Plain(k) && Calm(vars[k])
  }

  function Show(seg: Seg): string {
    match seg case Lit(t) => t case Token(r) => Braced(r)
  }

  function Flatten(segs: seq<Seg>): string {
    if segs == [] then "" else Show(segs[0]) + Flatten(segs[1..])
  }

  /** The value a token stands for: its exact name, or its name less one space on each side. */
  function Lookup(vars: map<string, string>, raw: string): Option<string> {
    if raw in vars then Some(vars[raw])
    else if |raw| >= 2 && raw == Pad(raw[1..|raw| - 1]) && raw[1..|raw| - 1] in vars then Some(vars[raw[1..|raw| - 1]])
    else None
  }

  function SubstSeg(seg: Seg, vars: map<string, string>): Seg {
    if seg.Token? && Lookup(vars, seg.raw).Some? then Lit(Lookup(vars, seg.raw).value) else seg
  }

  /** Every token replaced at once; unknown tokens stay. */
  function Subst(segs: seq<Seg>, vars: map<string, string>): (r: seq<Seg>)
    ensures |r| == |segs|
    ensures forall i :: 0 <= i < |segs| ==> r[i] == SubstSeg(segs[i], vars)
  {
    seq(|segs|, i requires 0 <= i < |segs| => SubstSeg(segs[i], vars))
  }

  /** Two keys that differ by the padding but not in value cannot be told apart. */
  predicate Clash(vars: map<string, string>) {
    exists k :: k in vars && Pad(k) in vars && vars[k] != vars[Pad(k)]
  }

  // ----- One replacement pass acts on tokens only -----

  function FillSeg(seg: Seg, raw: string, v: string): Seg {
    if seg == Token(raw) then Lit(v) else seg
  }

  function Fill(segs: seq<Seg>, raw: string, v: string): (r: seq<Seg>)
    ensures |r| == |segs|
    ensures forall i :: 0 <= i < |segs| ==> r[i] == FillSeg(segs[i], raw, v)
  {
    seq(|segs|, i requires 0 <= i < |segs| => FillSeg(segs[i], raw, v))
  }

  /** A brace-free name followed by a closing brace is determined by the text that starts with it. */
  lemma NameIsDetermined(a: string, b: string, rest: string)
    requires Plain(a) && Plain(b)
    requires a + "}}" <= b + "}}" + rest
    ensures a == b
  {
    var s := b + "}}" + rest;
    var m := if |a| < |b| then |a| else |b|;
    assert (a + "}}")[m] == s[m];
    assert a == (a + "}}")[..|a|] == s[..|a|] == b;
  }

  /** Calm text is passed over, whatever follows it. */
  lemma {:induction false} CalmIsKept(lit: string, rest: string, raw: string, v: string)
    requires Calm(lit)
    ensures ReplaceAll(lit + rest, Braced(raw), v) == lit + ReplaceAll(rest, Braced(raw), v)
  {
    var pat := Braced(raw);
    if lit == "" {
      assert lit + rest == rest;
    } else {
      var s := lit + rest;
      assert s[1..] == lit[1..] + rest && s[0] == lit[0];
      CalmIsKept(lit[1..], rest, raw, v);
      assert !(pat <= s) by {
        assert pat[0] == '{' && pat[1] == '{';
        assert |lit| > 1 ==> s[1] == lit[1];
      }
      assert lit == [lit[0]] + lit[1..];
    }
  }

  lemma {:induction false} TokenIsReplaced(raw: string, rest: string, v: string)
    ensures ReplaceAll(Braced(raw) + rest, Braced(raw), v) == v + ReplaceAll(rest, Braced(raw), v)
  {
    assert (Braced(raw) + rest)[|Braced(raw)|..] == rest;
  }

  lemma {:induction false} OtherTokenIsKept(raw: string, other: string, rest: string, v: string)
    requires Plain(raw) && Plain(other) && raw != other
    ensures ReplaceAll(Braced(other) + rest, Braced(raw), v) == Braced(other) + ReplaceAll(rest, Braced(raw), v)
  {
    var pat := Braced(raw);
    var s := Braced(other) + rest;
    if pat <= s {
      assert raw + "}}" == pat[2..] <= s[2..] == other + "}}" + rest;
      NameIsDetermined(raw, other, rest);
    }
    var tail := other + "}}" + rest;
    assert s[1..] == "{" + tail;
    assert !(pat <= s[1..]) by {
      assert s[1..][1] == (other + "}}")[0];
      assert pat[1] == '{';
    }
    assert s[1..][1..] == tail == (other + "}}") + rest;
    CalmIsKept(other + "}}", rest, raw, v);
    assert s == "{" + ("{" + tail);
    assert Braced(other) + ReplaceAll(rest, pat, v) == "{" + ("{" + ((other + "}}") + ReplaceAll(rest, pat, v)));
  }

  lemma {:induction false} ReplaceIsFill(segs: seq<Seg>, raw: string, v: string)
    requires PlainSegs(segs) && Plain(raw)
    ensures ReplaceAll(Flatten(segs), Braced(raw), v) == Flatten(Fill(segs, raw, v))
  {
    if segs != [] {
      var rest := Flatten(segs[1..]);
      ReplaceIsFill(segs[1..], raw, v);
      assert Fill(segs, raw, v)[1..] == Fill(segs[1..], raw, v);
      match segs[0]
      case Lit(t) => CalmIsKept(t, rest, raw, v);
      case Token(r) =>
        if r == raw { TokenIsReplaced(raw, rest, v); } else { OtherTokenIsKept(raw, r, rest, v); }
    }
  }

  // ----- A whole walk over the map -----

  predicate Names(k: string, raw: string) { raw == k || raw == Pad(k) }

  /** The first key of the order that a token names. */
  function FirstKey(order: seq<string>, raw: string): Option<string> {
    if order == [] then None
    else
      var before := FirstKey(order[..|order| - 1], raw);
      if before.Some? then before
      else if Names(order[|order| - 1], raw) then Some(order[|order| - 1])
      else None
  }

  lemma {:induction false} FirstKeyNames(order: seq<string>, raw: string)
    ensures FirstKey(order, raw).Some? ==> FirstKey(order, raw).value in order && Names(FirstKey(order, raw).value, raw)
    ensures FirstKey(order, raw).None? ==> forall k :: k in order ==> !Names(k, raw)
  {
    if order != [] {
      FirstKeyNames(order[..|order| - 1], raw);
      assert order == order[..|order| - 1] + [order[|order| - 1]];
    }
  }

  function SubstFirstSeg(seg: Seg, order: seq<string>, vars: map<string, string>): Seg
    requires forall k :: k in order ==> k in vars
  {
    if seg.Token? then
      FirstKeyNames(order, seg.raw);
      match FirstKey(order, seg.raw) case Some(k) => Lit(vars[k]) case None => seg
    else seg
  }

  function SubstFirst(segs: seq<Seg>, order: seq<string>, vars: map<string, string>): (r: seq<Seg>)
    requires forall k :: k in order ==> k in vars
    ensures |r| == |segs|
    ensures forall i :: 0 <= i < |segs| ==> r[i] == SubstFirstSeg(segs[i], order, vars)
  {
    seq(|segs|, i requires 0 <= i < |segs| => SubstFirstSeg(segs[i], order, vars))
  }

  /** With no side condition on the keys: the sequence of rewritings gives every token to the first key it names. */
  lemma {:induction false} RenderGivesFirstKey(segs: seq<Seg>, order: seq<string>, vars: map<string, string>)
    requires PlainSegs(segs) && PlainVars(vars)
    requires forall k :: k in order ==> k in vars
    ensures RenderIn(Flatten(segs), order, vars) == Flatten(SubstFirst(segs, order, vars))
  {
    hide ReplaceAll, Flatten;
    if order == [] {
      assert SubstFirst(segs, order, vars) == segs;
    } else {
      var done, k := order[..|order| - 1], order[|order| - 1];
      RenderGivesFirstKey(segs, done, vars);
      var s0 := SubstFirst(segs, done, vars);
      forall i | 0 <= i < |segs| ensures PlainSeg(s0[i]) {
        if segs[i].Token? { FirstKeyNames(done, segs[i].raw); }
      }
      var s1 := Fill(s0, k, vars[k]);
      ReplaceIsFill(s0, k, vars[k]);
      ReplaceIsFill(s1, Pad(k), vars[k]);
      assert Fill(s1, Pad(k), vars[k]) == SubstFirst(segs, order, vars);
    }
  }

  lemma FirstKeyIsLookup(raw: string, order: seq<string>, vars: map<string, string>)
    requires IsOrder(order, vars.Keys) && !Clash(vars)
    ensures SubstFirstSeg(Token(raw), order, vars) == SubstSeg(Token(raw), vars)
  {
    FirstKeyNames(order, raw);
    match FirstKey(order, raw) {
      case None =>
        if |raw| >= 2 && raw == Pad(raw[1..|raw| - 1]) { assert Names(raw[1..|raw| - 1], raw); }
      case Some(k) =>
        if raw == Pad(k) { assert raw[1..|raw| - 1] == k; }
    }
  }

  /** Rendering, in any order of the keys, replaces every matching token at once and leaves the rest alone. */
  lemma {:induction false} RenderIsSubst(segs: seq<Seg>, order: seq<string>, vars: map<string, string>)
    requires PlainSegs(segs) && PlainVars(vars)
    requires IsOrder(order, vars.Keys) && !Clash(vars)
    ensures RenderIn(Flatten(segs), order, vars) == Flatten(Subst(segs, vars))
  {
    RenderGivesFirstKey(segs, order, vars);
    forall i | 0 <= i < |segs| && segs[i].Token? ensures SubstFirst(segs, order, vars)[i] == Subst(segs, vars)[i] {
      FirstKeyIsLookup(segs[i].raw, order, vars);
    }
    assert SubstFirst(segs, order, vars) == Subst(segs, vars);
  }

  lemma {:induction false} LoneTokenIsKept(raw: string, other: string, v: string)
    requires Plain(raw) && Plain(other) && raw != other
    ensures ReplaceAll(Braced(other), Braced(raw), v) == Braced(other)
  {
    OtherTokenIsKept(raw, other, "", v);
    assert Braced(other) + "" == Braced(other);
  }

  lemma {:induction false} TokenOnly(raw: string, v: string)
    ensures ReplaceAll(Braced(raw), Braced(raw), v) == v
  {
    TokenIsReplaced(raw, "", v);
    assert Braced(raw) + "" == Braced(raw);
  }

  lemma {:induction false} RenderPair(html: string, k1: string, k2: string, vars: map<string, string>)
    requires k1 in vars && k2 in vars
    ensures RenderIn(html, [k1, k2], vars) == RenderKey(RenderKey(html, k1, vars[k1]), k2, vars[k2])
  {
    assert [k1, k2][..1] == [k1] && [k1][..0] == [];
    assert RenderIn(html, [k1], vars) == RenderKey(RenderIn(html, [], vars), k1, vars[k1]);
  }

  // ----- Passing the same body through the renderer again -----

  lemma SubstStaysPlain(segs: seq<Seg>, vars: map<string, string>)
    requires PlainSegs(segs) && PlainVars(vars)
    ensures PlainSegs(Subst(segs, vars))
  {
  }

  lemma LookupsCompose(raw: string, v1: map<string, string>, v2: map<string, string>)
    requires !Clash(v2 + v1)
    ensures Lookup(v2 + v1, raw) == if Lookup(v1, raw).Some? then Lookup(v1, raw) else Lookup(v2, raw)
  {
    if |raw| >= 2 && raw == Pad(raw[1..|raw| - 1]) {
      var k, both := raw[1..|raw| - 1], v2 + v1;
      assert k in both && Pad(k) in both ==> both[k] == both[Pad(k)];
    }
  }

  /** Two rendering passes with different maps act as one with the earlier map's values winning. */
  lemma {:induction false} PassesCompose(segs: seq<Seg>, o1: seq<string>, v1: map<string, string>, o2: seq<string>, v2: map<string, string>)
    requires PlainSegs(segs) && PlainVars(v1) && PlainVars(v2)
    requires IsOrder(o1, v1.Keys) && IsOrder(o2, v2.Keys) && !Clash(v1) && !Clash(v2) && !Clash(v2 + v1)
    ensures RenderIn(RenderIn(Flatten(segs), o1, v1), o2, v2) == Flatten(Subst(segs, v2 + v1))
  {
    RenderIsSubst(segs, o1, v1);
    SubstStaysPlain(segs, v1);
    RenderIsSubst(Subst(segs, v1), o2, v2);
    SubstsCompose(segs, v1, v2);
  }

  lemma SubstsCompose(segs: seq<Seg>, v1: map<string, string>, v2: map<string, string>)
    requires !Clash(v2 + v1)
    ensures Subst(Subst(segs, v1), v2) == Subst(segs, v2 + v1)
  {
    forall i | 0 <= i < |segs| && segs[i].Token?
      ensures SubstSeg(SubstSeg(segs[i], v1), v2) == SubstSeg(segs[i], v2 + v1)
    {
      LookupsCompose(segs[i].raw, v1, v2);
    }
  }

  /** The automation step, the send request and the send job each render with the same tags: one pass would do. */
  lemma {:induction false} ThreePassesAreOne(segs: seq<Seg>, vars: map<string, string>, o1: seq<string>, o2: seq<string>, o3: seq<string>)
    requires PlainSegs(segs) && PlainVars(vars) && !Clash(vars)
    requires IsOrder(o1, vars.Keys) && IsOrder(o2, vars.Keys) && IsOrder(o3, vars.Keys)
    ensures RenderIn(RenderIn(RenderIn(Flatten(segs), o1, vars), o2, vars), o3, vars) == Flatten(Subst(segs, vars))
  {
    assert vars + vars == vars;
    PassesCompose(segs, o1, vars, o2, vars);
    var done := Subst(segs, vars);
    RenderIsSubst(done, o3, vars);
    SubstsCompose(segs, vars, vars);
  }

  /** The renderer itself: it walks the map in an arbitrary order, which it reports. */
  method Render(html: string, vars: map<string, string>) returns (out: string, ghost order: seq<string>)
    ensures IsOrder(order, vars.Keys)
    ensures out == RenderIn(html, order, vars)
    ensures PlainVars(vars) && !Clash(vars)
            ==> forall segs :: PlainSegs(segs) && html == Flatten(segs) ==> out == Flatten(Subst(segs, vars))
  {
    hide ReplaceAll, Flatten, PlainVars, PlainSegs, Clash, Subst;
    out, order := html, [];
    var left := vars.Keys;
    while left != {}
      invariant left <= vars.Keys
      invariant IsOrder(order, vars.Keys - left)
      invariant forall k :: k in order ==> k in vars
      invariant out == RenderIn(html, order, vars)
      decreases left
    {
      var k :| k in left;
      var v := vars[k];
      ghost var before := out;
      out := ReplaceAll(out, "{{" + k + "}}", v);
      out := ReplaceAll(out, "{{ " + k + " }}", v);
      assert "{{ " + k + " }}" == Braced(Pad(k));
      assert out == RenderKey(before, k, v);
      assert (order + [k])[..|order|] == order;
      order := order + [k];
      left := left - {k};
    }
    if PlainVars(vars) && !Clash(vars) {
      forall segs | PlainSegs(segs) && html == Flatten(segs) ensures out == Flatten(Subst(segs, vars)) {
        RenderIsSubst(segs, order, vars);
      }
    }
  }
}
