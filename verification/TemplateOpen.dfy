/**
  Values that leave a placeholder open: one that ends in the beginning of another key's placeholder makes the map's
  order visible, because the template's own text can complete it.
 */
module TemplateOpen {
  import opened Text
  import opened Template
  import opened TemplateTurn
  import opened TemplateOrder

  // ----- A text that ends in a placeholder -----

  lemma NoStraddle(u: string, name: string, raw: string)
    requires Plain(name) && Plain(raw) && 0 < |u| < |Braced(raw)|
    ensures !(Braced(raw) <= u + Braced(name))
  {
    var p, s, i := Braced(raw), u + Braced(name), |u|;
    assert s[i] == '{' && s[i + 1] == '{';
    if i == 1 {
      assert p[2] == (raw + "}")[0];
    } else if i < |p| {
      assert p[i] == (raw + "}}")[i - 2];
    }
  }

  /** The placeholder at the end is reached by itself, whatever comes before it. */
  lemma {:induction false} PassAtEnd(u: string, name: string, raw: string, v: string)
    requires Plain(name) && Plain(raw)
    ensures ReplaceAll(u + Braced(name), Braced(raw), v)
         == ReplaceAll(u, Braced(raw), v) + if name == raw then v else Braced(name)
  {
    hide Braced, Plain;
    BracedIsNot(raw, name);
    var p, e := Braced(raw), Braced(name);
    var done := if name == raw then v else e;
    if u == "" {
      assert u + e == e;
      if name == raw { TokenOnly(raw, v); } else { LoneTokenIsKept(raw, name, v); }
    } else {
      if |u| < |p| { NoStraddle(u, name, raw); } else { PrefixOfSum(p, u, e); }
      if p <= u {
        PassAtEnd(u[|p|..], name, raw, v);
        Regroup(v, ReplaceAll(u[|p|..], p, v), done);
      } else {
        PassAtEnd(u[1..], name, raw, v);
        TailOfSum(u, e);
        Regroup([u[0]], ReplaceAll(u[1..], p, v), done);
      }
    }
  }

  // ----- The order shows -----

  /** The value ends in a beginning of the placeholder of that name. */
  predicate Opens(v: string, name: string, cut: nat) {
    0 < cut < |Braced(name)| && cut <= |v| && v[|v| - cut..] == Braced(name)[..cut]
  }

  lemma TailIsCalm(name: string, cut: nat)
    requires Plain(name) && 0 < cut < |Braced(name)|
    ensures Calm(Braced(name)[cut..])
  {
    var p, t := Braced(name), Braced(name)[cut..];
    assert forall i :: 0 <= i < |t| ==> t[i] == p[cut + i];
    assert forall i :: 2 <= i < |p| ==> p[i] != '{';
  }

  lemma OtherKeyKeeps(a: string, rest: string, q: string, v: string)
    requires Plain(a) && Calm(rest) && Plain(q) && !Names(q, a)
    ensures RenderKey(Braced(a) + rest, q, v) == Braced(a) + rest
  {
    hide ReplaceAll, Braced, Plain, Calm;
    PadDiffers(q);
    OtherTokenIsKept(q, a, rest, v);
    CalmPass(rest, q, v);
    OtherTokenIsKept(Pad(q), a, rest, v);
    CalmPass(rest, Pad(q), v);
  }

  /** The key's own turn on its token with the rest of the other placeholder behind it completes that placeholder. */
  lemma OwnTurnCompletes(a: string, v: string, name: string, cut: nat) returns (u: string)
    requires Plain(a) && Plain(name) && name != Pad(a) && Opens(v, name, cut)
    ensures RenderKey(Braced(a) + Braced(name)[cut..], a, v) == u + Braced(name)
  {
    hide ReplaceAll, Plain, Calm;
    PadDiffers(a);
    var rest, head := Braced(name)[cut..], v[..|v| - cut];
    TailIsCalm(name, cut);
    TokenIsReplaced(a, rest, v);
    CalmPass(rest, a, v);
    assert v + rest == head + Braced(name);
    PassAtEnd(head, name, Pad(a), v);
    u := ReplaceAll(head, Braced(Pad(a)), v);
  }

  /**
    For any values at all: a value that ends in a beginning of another key's placeholder, tight or padded, makes the
    order visible, unless that key stands for the placeholder itself.
   */
  lemma OpenValueShowsOrder(vars: map<string, string>, a: string, k: string, name: string, cut: nat)
    requires PlainKeys(vars) && a in vars && k in vars && a != k && (forall q :: q in vars ==> Pad(q) != a)
    requires Names(k, name) && name != Pad(a) && vars[k] != Braced(name) && Opens(vars[a], name, cut)
    ensures !OrderIndependent(vars)
  {
    hide OrderIndependent, RenderKey, Braced, Plain, Calm;
    if OrderIndependent(vars) {
      PadDiffers(k);
      TailIsCalm(name, cut);
      var rest := Braced(name)[cut..];
      var segs := [Token(a), Lit(rest)];
      FlattenTwo(Token(a), Lit(rest), []);
      assert segs + [] == segs && rest + "" == rest;
      forall q | q in vars && q != a ensures RenderKey(Flatten(segs), q, vars[q]) == Flatten(segs) {
        OtherKeyKeeps(a, rest, q, vars[q]);
      }
      TurnsCommute(vars, segs, a, k);
      var u := OwnTurnCompletes(a, vars[a], name, cut);
      ContainsAtEnd(u, Braced(name));
      KeepsIff(u + Braced(name), k, vars[k]);
    }
  }

  /** Some value ends in a beginning of another key's placeholder, and nothing but that value's own key stands in the way. */
  ghost predicate OpensAnother(vars: map<string, string>) {
    exists a, k, name, cut ::
      && a in vars && k in vars && a != k && (forall q :: q in vars ==> Pad(q) != a)
      && Names(k, name) && name != Pad(a) && vars[k] != Braced(name) && Opens(vars[a], name, cut)
  }

  /** Both kinds of values together: those that leave a placeholder of another key open never hide the order. */
  lemma OrderIndependentIffClosed(vars: map<string, string>)
    requires PlainKeys(vars) && (WellFormedVars(vars) || OpensAnother(vars))
    ensures OrderIndependent(vars) <==> WellFormedVars(vars) && !Clash(vars) && !Tangled(vars)
  {
    hide OrderIndependent, Clash, Tangled, Opens;
    if OpensAnother(vars) {
      var a, k, name, cut :|
        && a in vars && k in vars && a != k && (forall q :: q in vars ==> Pad(q) != a)
        && Names(k, name) && name != Pad(a) && vars[k] != Braced(name) && Opens(vars[a], name, cut);
      OpenValueShowsOrder(vars, a, k, name, cut);
    }
    if WellFormedVars(vars) { OrderIndependentIff(vars); }
  }

  lemma BracedIsNotCalm(k: string)
    ensures !Calm(Braced(k))
  {
    assert Braced(k)[0] == '{' && Braced(k)[1] == '{';
  }

  lemma OpeningOf(k: string, w: string)
    requires w < k && Plain(k)
    ensures Plain(w) && Opens("{{" + w, k, 2 + |w|)
  {
    assert forall i :: 0 <= i < |w| ==> w[i] == k[i];
    assert Braced(k)[..2 + |w|] == "{{" + w;
    assert ("{{" + w)[0..] == "{{" + w;
  }

  /** The template's own text is enough, as here, where the two conditions hold and no value spells a placeholder. */
  lemma OpenValueExample(a: string, k: string, w: string, x: string)
    requires Plain(a) && Plain(k) && Apart(a, k) && w < k && Calm(x)
    ensures var vars := map[a := "{{" + w, k := x];
            && !Clash(vars) && (forall q, raw :: q in vars ==> !Contains(vars[q], Braced(raw)))
            && !OrderIndependent(vars)
  {
    hide OrderIndependent, Contains, RenderKey, Calm, Plain, Opens, Braced;
    var vars := map[a := "{{" + w, k := x];
    PadDiffers(a);
    PadDiffers(k);
    forall q, raw | q in vars ensures !Contains(vars[q], Braced(raw)) {
      if q == a { OpenHoldsNone(w, raw); } else { CalmHoldsNone(x, raw); }
    }
    BracedIsNotCalm(k);
    OpeningOf(k, w);
    OpenValueShowsOrder(vars, a, k, k, 2 + |w|);
  }
}
