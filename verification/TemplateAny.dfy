/**
  Every template text, nested and unbalanced placeholders included, and any values: exactly when the order in which the
  renderer walks its map cannot be seen.
 */
module TemplateAny {
  import opened Text
  import opened Template
  import opened TemplateTurn
  import opened TemplateOrder

  // ----- Values that can be part of a placeholder -----

  /** In some surroundings the value and the pattern overlap: one holds the other, or one ends as the other begins. */
  predicate Touches(v: string, q: string) {
    || Contains(q, v)
    || Contains(v, q)
    || (exists m :: 0 < m < |q| && EndsInto(v, q, m))
    || (exists m :: 0 < m < |q| && BeginsFrom(v, q, m))
  }

  predicate EndsInto(v: string, q: string, m: nat) { m <= |v| && m <= |q| && v[|v| - m..] == q[..m] }

  predicate BeginsFrom(v: string, q: string, m: nat) { m <= |v| && m <= |q| && v[..m] == q[|q| - m..] }

  /** With value v put in for some other key, key k, whose value is w, can come to act where it did not, or cease to. */
  predicate Disturbs(v: string, k: string, w: string) {
    || (w != Braced(k) && Touches(v, Braced(k)))
    || (w != Braced(Pad(k)) && Touches(v, Braced(Pad(k))))
  }

  predicate Disturbed(vars: map<string, string>) {
    exists a, k :: a in vars && k in vars && a != k && Disturbs(vars[a], k, vars[k])
  }

  /** Every text renders the same in every order. */
  ghost predicate AlwaysAlike(vars: map<string, string>) {
    forall html, o1, o2 :: IsOrder(o1, vars.Keys) && IsOrder(o2, vars.Keys) ==> RenderIn(html, o1, vars) == RenderIn(html, o2, vars)
  }

  // ----- Passes that do not touch commute -----

  lemma StartTouches(v: string, x: string, q: string, i: nat)
    requires q != "" && i < |v| && q <= (v + x)[i..]
    ensures Touches(v, q)
  {
    hide Contains;
    var s := v + x;
    assert s[i..][..|q|] == s[i..i + |q|] == q;
    if i + |q| <= |v| {
      assert v[i..i + |q|] == q;
      ContainsAt(v, q, i);
    } else {
      var m := |v| - i;
      assert v[|v| - m..] == s[i..i + |q|][..m] == q[..m];
      assert EndsInto(v, q, m);
    }
  }

  lemma {:induction false} PassOverHead(y: string, x: string, q: string, w: string)
    requires q != "" && forall i :: 0 <= i < |y| ==> !(q <= (y + x)[i..])
    ensures ReplaceAll(y + x, q, w) == y + ReplaceAll(x, q, w)
  {
    if y == "" {
      assert y + x == x;
    } else {
      TailOfSum(y, x);
      assert (y + x)[0..] == y + x;
      assert forall i :: 0 <= i < |y| - 1 ==> (y[1..] + x)[i..] == (y + x)[i + 1..];
      PassOverHead(y[1..], x, q, w);
    }
  }

  lemma {:induction false} Untouched(v: string, x: string, q: string, w: string)
    requires q != "" && !Touches(v, q)
    ensures ReplaceAll(v + x, q, w) == v + ReplaceAll(x, q, w)
  {
    hide Touches;
    forall i | 0 <= i < |v| ensures !(q <= (v + x)[i..]) {
      if q <= (v + x)[i..] { StartTouches(v, x, q, i); }
    }
    PassOverHead(v, x, q, w);
  }

  /** A pattern that begins before a value put in and ends in it or behind it touches it. */
  lemma AcrossTouches(y: string, v: string, x: string, q: string)
    requires y != "" && |y| < |q| && q <= y + v + x
    ensures Touches(v, q)
  {
    hide Contains;
    var s := y + v + x;
    assert s[..|q|] == q;
    if |y| + |v| <= |q| {
      assert q[|y|..|y| + |v|] == s[..|q|][|y|..|y| + |v|] == v;
      ContainsAt(q, v, |y|);
    } else {
      var m := |q| - |y|;
      assert v[..m] == s[..|q|][|y|..] == q[|q| - m..];
      assert BeginsFrom(v, q, m);
    }
  }

  /** What stands at the start after a pass stood there before. */
  lemma {:induction false} PrefixThroughPass(y: string, t: string, p: string, v: string, q: string)
    requires p != "" && y != "" && !Touches(v, q) && q <= y + ReplaceAll(t, p, v)
    ensures q <= y + t
    decreases |t|
  {
    hide Touches;
    if |y| >= |q| {
      assert (y + ReplaceAll(t, p, v))[..|q|] == y[..|q|] == (y + t)[..|q|];
    } else if t != "" {
      if p <= t {
        Regroup(y, v, ReplaceAll(t[|p|..], p, v));
        AcrossTouches(y, v, ReplaceAll(t[|p|..], p, v), q);
      } else {
        Regroup(y, [t[0]], ReplaceAll(t[1..], p, v));
        PrefixThroughPass(y + [t[0]], t[1..], p, v, q);
        assert y + [t[0]] + t[1..] == y + t;
      }
    }
  }

  lemma {:induction false} PassesCommute(s: string, a: string, v: string, k: string, w: string)
    requires Plain(a) && Plain(k) && a != k && !Touches(v, Braced(k)) && !Touches(w, Braced(a))
    ensures ReplaceAll(ReplaceAll(s, Braced(a), v), Braced(k), w) == ReplaceAll(ReplaceAll(s, Braced(k), w), Braced(a), v)
  {
    hide Touches, Plain, Braced;
    BracesOf(a);
    BracesOf(k);
    var p, q := Braced(a), Braced(k);
    if s != "" {
      if p <= s {
        var t := s[|p|..];
        PrefixAndRest(p, s);
        PassesCommute(t, a, v, k, w);
        Untouched(v, ReplaceAll(t, p, v), q, w);
        OtherTokenIsKept(k, a, t, w);
        TokenIsReplaced(a, ReplaceAll(t, q, w), v);
      } else if q <= s {
        var t := s[|q|..];
        PrefixAndRest(q, s);
        PassesCommute(t, a, v, k, w);
        Untouched(w, ReplaceAll(t, q, w), p, v);
        OtherTokenIsKept(a, k, t, v);
        TokenIsReplaced(k, ReplaceAll(t, p, v), w);
      } else {
        CommuteBehind(s, a, v, k, w);
        PassesCommute(s[1..], a, v, k, w);
      }
    }
  }

  lemma {:induction false} CommuteBehind(s: string, a: string, v: string, k: string, w: string)
    requires Plain(a) && Plain(k) && a != k && !Touches(v, Braced(k)) && !Touches(w, Braced(a))
    requires s != "" && !(Braced(a) <= s) && !(Braced(k) <= s)
    ensures var p, q, t := Braced(a), Braced(k), s[1..];
            && ReplaceAll(ReplaceAll(s, p, v), q, w) == [s[0]] + ReplaceAll(ReplaceAll(t, p, v), q, w)
            && ReplaceAll(ReplaceAll(s, q, w), p, v) == [s[0]] + ReplaceAll(ReplaceAll(t, q, w), p, v)
  {
    hide Touches, Plain;
    var p, q, c, t := Braced(a), Braced(k), [s[0]], s[1..];
    assert c + t == s;
    var x, y := c + ReplaceAll(t, p, v), c + ReplaceAll(t, q, w);
    assert !(q <= x) by { if q <= x { PrefixThroughPass(c, t, p, v, q); } }
    assert !(p <= y) by { if p <= y { PrefixThroughPass(c, t, q, w, p); } }
    assert x[0] == s[0] && x[1..] == ReplaceAll(t, p, v) && y[0] == s[0] && y[1..] == ReplaceAll(t, q, w);
  }

  // ----- Turns that do not disturb each other commute, and so do whole walks -----

  /** One of a key's two patterns against one of another key's. */
  lemma {:induction false} PatternsCommute(s: string, a: string, v: string, k: string, w: string)
    requires Plain(a) && Plain(k) && (a == k ==> v == w)
    requires a != k ==> (w == Braced(k) || !Touches(v, Braced(k))) && (v == Braced(a) || !Touches(w, Braced(a)))
    ensures ReplaceAll(ReplaceAll(s, Braced(a), v), Braced(k), w) == ReplaceAll(ReplaceAll(s, Braced(k), w), Braced(a), v)
  {
    hide ReplaceAll, Touches, Plain;
    if a != k {
      if w == Braced(k) {
        ReplaceBySelf(s, w);
        ReplaceBySelf(ReplaceAll(s, Braced(a), v), w);
      } else if v == Braced(a) {
        ReplaceBySelf(s, v);
        ReplaceBySelf(ReplaceAll(s, Braced(k), w), v);
      } else {
        PassesCommute(s, a, v, k, w);
      }
    }
  }

  lemma UndisturbedCommute(s: string, a: string, v: string, k: string, w: string)
    requires Plain(a) && Plain(k) && a != k && !Disturbs(v, k, w) && !Disturbs(w, a, v)
    requires k == Pad(a) || a == Pad(k) ==> v == w
    ensures RenderKey(RenderKey(s, a, v), k, w) == RenderKey(RenderKey(s, k, w), a, v)
  {
    hide ReplaceAll, Touches, Plain;
    PadDiffers(a);
    PadDiffers(k);
    PadIsInjective(a, k);
    var a1 := ReplaceAll(s, Braced(a), v);
    var k1 := ReplaceAll(s, Braced(k), w);
    PatternsCommute(s, a, v, k, w);
    PatternsCommute(a1, Pad(a), v, k, w);
    var both := ReplaceAll(k1, Braced(a), v);
    PatternsCommute(both, Pad(a), v, Pad(k), w);
    PatternsCommute(k1, a, v, Pad(k), w);
  }

  ghost predicate AllCommute(vars: map<string, string>) {
    forall a, k, s :: a in vars && k in vars && a != k ==>
      RenderKey(RenderKey(s, a, vars[a]), k, vars[k]) == RenderKey(RenderKey(s, k, vars[k]), a, vars[a])
  }

  lemma {:induction false} MoveToEnd(html: string, x: seq<string>, k: string, y: seq<string>, vars: map<string, string>)
    requires AllCommute(vars) && k in vars && k !in y
    requires (forall q :: q in x ==> q in vars) && (forall q :: q in y ==> q in vars)
    ensures (forall q :: q in x + [k] + y ==> q in vars) && (forall q :: q in x + y + [k] ==> q in vars)
    ensures RenderIn(html, x + [k] + y, vars) == RenderIn(html, x + y + [k], vars)
  {
    hide RenderKey, RenderIn;
    if y == [] {
      assert x + [k] + y == x + y + [k];
    } else {
      var y', z := y[..|y| - 1], y[|y| - 1];
      assert z in y && y == y' + [z];
      MoveToEnd(html, x, k, y', vars);
      assert x + [k] + y == x + [k] + y' + [z] && x + y == x + y' + [z];
      RenderSnoc(html, x + [k] + y', z, vars);
      RenderSnoc(html, x + y', k, vars);
      RenderSnoc(html, x + y', z, vars);
      RenderSnoc(html, x + y, k, vars);
    }
  }

  lemma EmptyOrder(o: seq<string>, keys: set<string>)
    requires IsOrder(o, keys)
    ensures o == [] <==> keys == {}
  {
    if o != [] { assert o[0] in keys; }
    if keys != {} {
      var k :| k in keys;
      assert k in o;
    }
  }

  lemma WithoutLast(o: seq<string>, keys: set<string>)
    requires IsOrder(o, keys) && o != []
    ensures o[|o| - 1] in keys && IsOrder(o[..|o| - 1], keys - {o[|o| - 1]})
  {
    var n := |o| - 1;
    forall k ensures k in o[..n] <==> k in keys - {o[n]} {
      if k in keys - {o[n]} {
        var i :| 0 <= i < |o| && o[i] == k;
        assert o[..n][i] == k;
      }
    }
  }

  lemma WithoutAt(o: seq<string>, i: nat)
    requires i < |o|
    ensures var z := o[..i] + o[i + 1..];
            |z| == |o| - 1 && forall j :: 0 <= j < |z| ==> z[j] == o[if j < i then j else j + 1]
  {
  }

  lemma SplitAtKey(o: seq<string>, k: string, keys: set<string>) returns (x: seq<string>, y: seq<string>)
    requires IsOrder(o, keys) && k in keys
    ensures o == x + [k] + y && k !in y && IsOrder(x + y, keys - {k})
  {
    var i :| 0 <= i < |o| && o[i] == k;
    x, y := o[..i], o[i + 1..];
    var z := x + y;
    WithoutAt(o, i);
    forall q ensures q in z <==> q in keys - {k} {
      if q in keys - {k} {
        var j :| 0 <= j < |o| && o[j] == q;
        assert z[if j < i then j else j - 1] == q;
      }
    }
  }

  lemma {:induction false} OrdersCommute(html: string, o1: seq<string>, o2: seq<string>, keys: set<string>, vars: map<string, string>)
    requires AllCommute(vars) && keys <= vars.Keys && IsOrder(o1, keys) && IsOrder(o2, keys)
    ensures (forall q :: q in o1 ==> q in vars) && (forall q :: q in o2 ==> q in vars)
    ensures RenderIn(html, o1, vars) == RenderIn(html, o2, vars)
    decreases |o1|
  {
    hide RenderKey, RenderIn, AllCommute;
    if o1 == [] {
      EmptyOrder(o1, keys);
      EmptyOrder(o2, keys);
    } else {
      var front, k := o1[..|o1| - 1], o1[|o1| - 1];
      assert o1 == front + [k];
      WithoutLast(o1, keys);
      var x, y := SplitAtKey(o2, k, keys);
      assert forall q :: q in x || q in y ==> q in x + y;
      OrdersCommute(html, front, x + y, keys - {k}, vars);
      MoveToEnd(html, x, k, y, vars);
      RenderSnoc(html, front, k, vars);
      RenderSnoc(html, x + y, k, vars);
    }
  }

  lemma UndisturbedAreAlike(vars: map<string, string>)
    requires PlainKeys(vars) && !Clash(vars) && !Disturbed(vars)
    ensures AlwaysAlike(vars)
  {
    hide RenderKey, RenderIn, Disturbs;
    forall a, k, s | a in vars && k in vars && a != k
      ensures RenderKey(RenderKey(s, a, vars[a]), k, vars[k]) == RenderKey(RenderKey(s, k, vars[k]), a, vars[a])
    {
      UndisturbedCommute(s, a, vars[a], k, vars[k]);
    }
    forall html, o1, o2 | IsOrder(o1, vars.Keys) && IsOrder(o2, vars.Keys)
      ensures RenderIn(html, o1, vars) == RenderIn(html, o2, vars)
    {
      OrdersCommute(html, o1, o2, vars.Keys, vars);
    }
  }

  // ----- Surroundings in which a value becomes part of a placeholder -----

  predicate EndFits(v: string, q: string, e: string) {
    |e| <= |q| && q[|q| - |e|..] == e && EndsInto(v, q, |q| - |e|)
  }

  predicate BeginFits(v: string, q: string, b: string) {
    |b| <= |q| && q[..|b|] == b && BeginsFrom(v, q, |q| - |b|)
  }

  /** With b before it and e after it the value makes the pattern. */
  predicate Fits(b: string, v: string, e: string, q: string) {
    || b + v + e == q
    || (b == "" && e == "" && Contains(v, q))
    || (b == "" && EndFits(v, q, e))
    || (e == "" && BeginFits(v, q, b))
  }

  /** Pieces of the pattern to put before and after the value. */
  lemma Surround(v: string, q: string) returns (i: nat, j: nat)
    requires |q| >= 4 && Touches(v, q)
    ensures i < |q| && 0 < j <= |q| && Contains(q[..i] + v + q[j..], q) && Fits(q[..i], v, q[j..], q)
  {
    hide Contains;
    if Contains(v, q) {
      i, j := 0, |q|;
      assert q[..0] + v + q[|q|..] == v;
    } else if Contains(q, v) {
      i := FindInfix(q, v);
      j := i + |v|;
      assert q[..i] + v + q[j..] == q;
      ContainsItself(q);
    } else if m :| 0 < m < |q| && EndsInto(v, q, m) {
      i, j := 0, m;
      assert q[..0] + v + q[m..] == v[..|v| - m] + q;
      ContainsAtEnd(v[..|v| - m], q);
    } else {
      var m :| 0 < m < |q| && BeginsFrom(v, q, m);
      i, j := |q| - m, |q|;
      assert q[..i] + v + q[|q|..] == q + v[m..];
      ContainsAtStart(q, v[m..]);
    }
  }

  lemma FindInfix(q: string, v: string) returns (i: nat)
    requires |q| >= 4 && Contains(q, v)
    ensures i < |q| && 0 < i + |v| <= |q| && q[i..i + |v|] == v
  {
    i := if v == "" then 2 else Index(q, v);
  }

  lemma ContainsItself(q: string)
    ensures Contains(q, q)
  {
    ContainsAt(q, q, 0);
  }

  lemma ContainsAtStart(p: string, u: string)
    ensures Contains(p + u, p)
  {
    assert (p + u)[0..|p|] == p;
    ContainsAt(p + u, p, 0);
  }

  /** Text before something that opens like a placeholder. */
  predicate OpensTwice(x: string) { |x| >= 2 && x[0] == '{' && x[1] == '{' }

  /** No placeholder begins before it and ends in it or behind it. */
  lemma NoStraddleOver(u: string, x: string, raw: string)
    requires Plain(raw) && OpensTwice(x) && 0 < |u| < |Braced(raw)|
    ensures !(Braced(raw) <= u + x)
  {
    BracesOf(raw);
    var p, s, i := Braced(raw), u + x, |u|;
    assert s[i] == '{' && s[i + 1] == '{';
  }

  lemma {:induction false} ReplaceSplitsBefore(u: string, x: string, raw: string, w: string)
    requires Plain(raw) && OpensTwice(x)
    ensures ReplaceAll(u + x, Braced(raw), w) == ReplaceAll(u, Braced(raw), w) + ReplaceAll(x, Braced(raw), w)
  {
    hide Braced, Plain;
    BracesOf(raw);
    var p, done := Braced(raw), ReplaceAll(x, Braced(raw), w);
    if u == "" {
      assert u + x == x;
    } else {
      if |u| < |p| { NoStraddleOver(u, x, raw); } else { PrefixOfSum(p, u, x); }
      if p <= u {
        ReplaceSplitsBefore(u[|p|..], x, raw, w);
        Regroup(w, ReplaceAll(u[|p|..], p, w), done);
      } else {
        ReplaceSplitsBefore(u[1..], x, raw, w);
        TailOfSum(u, x);
        Regroup([u[0]], ReplaceAll(u[1..], p, w), done);
      }
    }
  }

  lemma {:induction false} PlacesSplitBefore(u: string, x: string, raw: string)
    requires Plain(raw) && OpensTwice(x)
    ensures Places(u + x, Braced(raw)) == Places(u, Braced(raw)) + Places(x, Braced(raw))
  {
    hide Braced, Plain;
    BracesOf(raw);
    var p := Braced(raw);
    if u == "" {
      assert u + x == x;
    } else {
      if |u| < |p| { NoStraddleOver(u, x, raw); } else { PrefixOfSum(p, u, x); }
      PlacesSplitBefore(u[1..], x, raw);
      TailOfSum(u, x);
    }
  }

  lemma CutAround(s: string, o: nat, p: string)
    requires o + |p| <= |s| && s[o..o + |p|] == p
    ensures s == s[..o] + p + s[o + |p|..]
  {
  }

  lemma {:induction false} NumberOfPart(s: string, p: string, c: char)
    requires Contains(s, p)
    ensures Number(s, c) >= Number(p, c)
  {
    hide Index, Number;
    var o := FindAt(s, p);
    CutAround(s, o, p);
    NumberJoin(s[..o] + p, s[o + |p|..], c);
    NumberJoin(s[..o], p, c);
  }

  /** An unfinished placeholder holds none. */
  lemma BeginningHoldsNone(name: string, i: nat, raw: string)
    requires Plain(name) && Plain(raw) && i < |Braced(name)|
    ensures Places(Braced(name)[..i], Braced(raw)) == 0
  {
    var u, p, most := Braced(name)[..i], Braced(raw), Braced(name)[..|name| + 3];
    ClosingBraces(name);
    ClosingBraces(raw);
    NumberJoin(u, most[i..], '}');
    assert most == u + most[i..];
    PlacesAreContained(u, p);
    hide Number, Contains;
    if Contains(u, p) { NumberOfPart(u, p, '}'); }
  }

  lemma EndingIsCalm(name: string, j: nat)
    requires Plain(name) && 0 < j <= |Braced(name)|
    ensures Calm(Braced(name)[j..])
  {
    BracesOf(name);
    var p, t := Braced(name), Braced(name)[j..];
    assert forall l :: 0 <= l < |t| ==> t[l] == p[j + l];
  }

  lemma {:induction false} CalmHasNone(t: string, raw: string)
    requires Calm(t)
    ensures Places(t, Braced(raw)) == 0
  {
    CalmHasNoPlace(t, "", raw);
    assert t + "" == t;
  }

  /** No placeholder is complete in it. */
  ghost predicate Bare(b: string) { forall raw :: Plain(raw) ==> Places(b, Braced(raw)) == 0 }

  lemma {:induction false} ShortHoldsNone(s: string, p: string)
    requires p != "" && |s| < |p|
    ensures Places(s, p) == 0
  {
    if s != "" { ShortHoldsNone(s[1..], p); }
  }

  /** Beginnings of a placeholder, one or two in a row, are bare. */
  lemma BeginningsAreBare(name: string, i: nat)
    requires Plain(name) && i < |Braced(name)|
    ensures Bare(Braced(name)[..i]) && Bare(Braced(name)[..i] + Braced(name)[..i])
  {
    hide Plain, Places;
    BracesOf(name);
    var b := Braced(name)[..i];
    forall raw | Plain(raw) ensures Places(b, Braced(raw)) == 0 && Places(b + b, Braced(raw)) == 0 {
      BracesOf(raw);
      BeginningHoldsNone(name, i, raw);
      if i >= 2 { PlacesSplitBefore(b, b, raw); } else { ShortHoldsNone(b + b, Braced(raw)); }
    }
  }

  lemma EndingsAreCalm(name: string, j: nat)
    requires Plain(name) && 0 < j <= |Braced(name)|
    ensures Calm(Braced(name)[j..]) && Calm(Braced(name)[j..] + Braced(name)[j..])
  {
    EndingIsCalm(name, j);
    CalmAppend(Braced(name)[j..], Braced(name)[j..]);
  }

  lemma TokenOpensTwice(raw: string, a: string)
    ensures OpensTwice(Braced(raw) + a)
  {
  }

  /** Between such pieces there is only the token itself. */
  lemma {:induction false} AroundKept(b: string, raw: string, a: string, z: string, w: string)
    requires Bare(b) && Calm(a) && Plain(raw) && Plain(z) && raw != z
    ensures ReplaceAll(b + (Braced(raw) + a), Braced(z), w) == b + (Braced(raw) + a)
  {
    hide Places, ReplaceAll, Calm;
    TokenOpensTwice(raw, a);
    PlacesSplitBefore(b, Braced(raw) + a, z);
    TokenIsOnePlace(raw, a, z);
    CalmHasNone(a, z);
    HitsArePlaces(b + (Braced(raw) + a), z);
    NoHits(b + (Braced(raw) + a), Braced(z), w);
  }

  lemma {:induction false} AroundFilled(b: string, raw: string, a: string, w: string)
    requires Bare(b) && Calm(a) && Plain(raw)
    ensures ReplaceAll(b + (Braced(raw) + a), Braced(raw), w) == b + (w + a)
  {
    hide Places, ReplaceAll, Calm;
    TokenOpensTwice(raw, a);
    ReplaceSplitsBefore(b, Braced(raw) + a, raw, w);
    HitsArePlaces(b, raw);
    NoHits(b, Braced(raw), w);
    TokenIsReplaced(raw, a, w);
    CalmPass(a, raw, w);
  }

  lemma AroundUnnamed(b: string, raw: string, a: string, z: string, w: string)
    requires Bare(b) && Calm(a) && Plain(raw) && Plain(z) && !Names(z, raw)
    ensures RenderKey(b + (Braced(raw) + a), z, w) == b + (Braced(raw) + a)
  {
    hide ReplaceAll, Braced, Calm, Bare;
    PadDiffers(z);
    AroundKept(b, raw, a, z, w);
    AroundKept(b, raw, a, Pad(z), w);
  }

  /** The turn of the key whose padded token it is puts the value in and leaves it at that. */
  lemma AroundPadded(b: string, a: string, z: string, w: string)
    requires Bare(b) && Calm(a) && Plain(z)
    ensures RenderKey(b + (Braced(Pad(z)) + a), z, w) == b + (w + a)
  {
    hide ReplaceAll, Braced, Calm, Bare;
    PadDiffers(z);
    AroundKept(b, Pad(z), a, z, w);
    AroundFilled(b, Pad(z), a, w);
  }

  lemma {:induction false} AroundTight(b: string, a: string, z: string, w: string)
    requires Bare(b) && Calm(a) && Plain(z)
    ensures RenderKey(b + (Braced(z) + a), z, w) == ReplaceAll(b + (w + a), Braced(Pad(z)), w)
  {
    hide ReplaceAll, Braced, Calm, Bare;
    AroundFilled(b, z, a, w);
  }

  /** What is contained in a text put together is in one of the parts, or touches the middle one. */
  lemma InPartsOrTouches(b: string, v: string, a: string, p: string)
    requires p != "" && Contains(b + (v + a), p)
    ensures Contains(b, p) || Touches(v, p) || Contains(a, p)
  {
    hide Contains, Touches;
    var s := b + (v + a);
    var o := FindAt(s, p);
    Regroup(b, v, a);
    assert p <= s[o..];
    if o + |p| <= |b| {
      assert b[o..o + |p|] == s[o..o + |p|];
      ContainsAt(b, p, o);
    } else if o < |b| {
      assert s[o..] == b[o..] + v + a;
      AcrossTouches(b[o..], v, a, p);
    } else if o < |b| + |v| {
      assert s[o..] == (v + a)[o - |b|..];
      StartTouches(v, a, p, o - |b|);
    } else {
      var n := o - |b| - |v|;
      assert a[n..n + |p|] == s[o..o + |p|];
      ContainsAt(a, p, n);
    }
  }

  lemma FindAt(s: string, p: string) returns (o: nat)
    requires Contains(s, p)
    ensures o + |p| <= |s| && s[o..o + |p|] == p && p <= s[o..]
  {
    o := Index(s, p);
  }

  /** A pass brings in only what its value touches. */
  lemma {:induction false} PassMakesNone(s: string, r: string, w: string, p: string)
    requires r != "" && p != "" && Contains(ReplaceAll(s, r, w), p)
    ensures Contains(s, p) || Touches(w, p)
  {
    hide Contains, Touches;
    if s != "" {
      if r <= s {
        var t := s[|r|..];
        assert "" + (w + ReplaceAll(t, r, w)) == w + ReplaceAll(t, r, w);
        InPartsOrTouches("", w, ReplaceAll(t, r, w), p);
        EmptyHoldsNone(p);
        if Contains(ReplaceAll(t, r, w), p) {
          PassMakesNone(t, r, w, p);
          PrefixAndRest(r, s);
          if Contains(t, p) { ContainsLater(r, t, p); }
        }
      } else {
        var t := s[1..];
        assert s == [s[0]] + t;
        var o := FindAt([s[0]] + ReplaceAll(t, r, w), p);
        if o == 0 {
          assert ([s[0]] + ReplaceAll(t, r, w))[0..] == [s[0]] + ReplaceAll(t, r, w);
          if !Touches(w, p) {
            PrefixThroughPass([s[0]], t, r, w, p);
            ContainsAt(s, p, 0);
          }
        } else {
          assert ReplaceAll(t, r, w)[o - 1..o - 1 + |p|] == ([s[0]] + ReplaceAll(t, r, w))[o..o + |p|];
          ContainsAt(ReplaceAll(t, r, w), p, o - 1);
          PassMakesNone(t, r, w, p);
          if Contains(t, p) { ContainsLater([s[0]], t, p); }
        }
      }
    }
  }

  lemma EmptyHoldsNone(p: string)
    requires p != ""
    ensures !Contains("", p)
  {
  }

  // ----- If the order cannot be seen, nothing is disturbed -----

  lemma {:induction false} NestedWhole(b: string, v: string, e: string, name: string)
    requires Plain(name) && Bare(b) && Calm(e) && b + v + e == Braced(name)
    ensures Contains(ReplaceAll(b + b + (v + (e + e)), Braced(name), v), Braced(name))
  {
    hide Contains, ReplaceAll, Plain, Bare, Calm, Braced;
    var q := Braced(name);
    assert b + b + (v + (e + e)) == b + (b + v + e + e);
    AroundFilled(b, name, e, v);
    Regroup(b, v, e);
    ContainsItself(q);
  }

  lemma {:induction false} NestedEnd(u: string, h: string, e: string, name: string)
    requires Plain(name) && Calm(e) && h + e == Braced(name)
    ensures Contains(ReplaceAll(u + h + (e + e), Braced(name), u + h), Braced(name))
  {
    hide Contains, ReplaceAll, Plain, Bare, Calm;
    var q, v := Braced(name), u + h;
    assert u + h + (e + e) == u + (q + e);
    TokenOpensTwice(name, e);
    ReplaceSplitsBefore(u, q + e, name, v);
    Empties(q + e, v + e);
    AroundFilled("", name, e, v);
    var r := ReplaceAll(u, q, v);
    assert r + (v + e) == r + u + q;
    ContainsAtEnd(r + u, q);
  }

  lemma {:induction false} NestedBegin(b: string, t: string, u: string, name: string)
    requires Plain(name) && Bare(b) && b + t == Braced(name)
    ensures Contains(ReplaceAll(b + b + (t + u), Braced(name), t + u), Braced(name))
  {
    hide Contains, ReplaceAll, Plain, Bare, Calm;
    var q, v := Braced(name), t + u;
    assert b + b + (t + u) == b + (q + u);
    TokenOpensTwice(name, u);
    ReplaceSplitsBefore(b, q + u, name, v);
    TokenIsReplaced(name, u, v);
    BareIsKept(b, name, v);
    var r := ReplaceAll(u, q, v);
    assert b + (v + r) == q + (u + r);
    ContainsAtStart(q, u + r);
  }

  lemma {:induction false} NestedHolds(b: string, v: string, e: string, name: string)
    requires Plain(name) && b == "" && e == "" && Contains(v, Braced(name))
    ensures Contains(ReplaceAll(b + b + (v + (e + e)), Braced(name), v), Braced(name))
  {
    hide Contains, ReplaceAll, Plain, Braced;
    assert b + b + (v + (e + e)) == v;
    HoldsBoth(v, Braced(name), name);
  }

  lemma {:induction false} NestedEndFits(b: string, v: string, e: string, name: string)
    requires Plain(name) && Calm(e) && b == "" && EndFits(v, Braced(name), e)
    ensures Contains(ReplaceAll(b + b + (v + (e + e)), Braced(name), v), Braced(name))
  {
    hide Contains, ReplaceAll, Plain, Braced, Calm;
    var m := |Braced(name)| - |e|;
    var u, h := v[..|v| - m], v[|v| - m..];
    assert v == u + h && h + e == Braced(name);
    NestedEnd(u, h, e, name);
    assert b + b + (v + (e + e)) == v + (e + e);
  }

  lemma {:induction false} NestedBeginFits(b: string, v: string, e: string, name: string)
    requires Plain(name) && Bare(b) && e == "" && BeginFits(v, Braced(name), b)
    ensures Contains(ReplaceAll(b + b + (v + (e + e)), Braced(name), v), Braced(name))
  {
    hide Contains, ReplaceAll, Plain, Braced, Bare;
    var m := |Braced(name)| - |b|;
    var t, u := v[..m], v[m..];
    assert v == t + u && b + t == Braced(name);
    NestedBegin(b, t, u, name);
    assert v + (e + e) == v;
  }

  /** Nested once more, the value still leaves the placeholder after the key's own second pass has replaced one. */
  lemma {:induction false} NestedSurvives(b: string, v: string, e: string, name: string)
    requires Plain(name) && Bare(b) && Calm(e) && Fits(b, v, e, Braced(name))
    ensures Contains(ReplaceAll(b + b + (v + (e + e)), Braced(name), v), Braced(name))
  {
    hide Contains, ReplaceAll, Plain, Braced, Bare, Calm, EndFits, BeginFits;
    var q := Braced(name);
    if b + v + e == q {
      NestedWhole(b, v, e, name);
    } else if b == "" && e == "" && Contains(v, q) {
      NestedHolds(b, v, e, name);
    } else if b == "" && EndFits(v, q, e) {
      NestedEndFits(b, v, e, name);
    } else {
      NestedBeginFits(b, v, e, name);
    }
  }

  lemma Empties(a: string, b: string)
    ensures "" + a == a && "" + b == b && Bare("")
  {
  }

  lemma {:induction false} BareIsKept(b: string, raw: string, w: string)
    requires Bare(b) && Plain(raw)
    ensures ReplaceAll(b, Braced(raw), w) == b
  {
    HitsArePlaces(b, raw);
    NoHits(b, Braced(raw), w);
  }

  lemma {:induction false} HoldsBoth(v: string, q: string, name: string)
    requires Plain(name) && q == Braced(name) && Contains(v, q)
    ensures Contains(ReplaceAll(v, q, v), q)
  {
    hide Contains, ReplaceAll, Places, Hits, Plain;
    BracesOf(name);
    PlacesAreContained(v, q);
    HitsArePlaces(v, name);
    ReplaceBringsIn(v, q, v, q);
    PlacesAreContained(ReplaceAll(v, q, v), q);
  }

  lemma {:induction false} PassSpares(s: string, raw: string, name: string, w: string)
    requires Plain(raw) && Plain(name) && raw != name && Contains(s, Braced(name))
    ensures Contains(ReplaceAll(s, Braced(raw), w), Braced(name))
  {
    hide Contains, ReplaceAll, Places, Hits, Plain;
    BracesOf(name);
    PlacesAreContained(s, Braced(name));
    PassAdds(s, name, raw, w);
    PlacesAreContained(ReplaceAll(s, Braced(raw), w), Braced(name));
  }

  lemma TurnLeaves(s: string, z: string, name: string, w: string)
    requires Plain(z) && Plain(name) && !Names(z, name) && Contains(s, Braced(name))
    ensures Contains(RenderKey(s, z, w), Braced(name))
  {
    hide Contains, ReplaceAll, Plain;
    PadDiffers(z);
    PassSpares(s, z, name, w);
    PassSpares(ReplaceAll(s, Braced(z), w), Pad(z), name, w);
  }

  /** A key's tight token with pieces around it, such that its own turn makes another key's placeholder of them. */
  lemma TightMakes(a: string, v: string, name: string) returns (b: string, e: string)
    requires Plain(a) && Plain(name) && name != a && Touches(v, Braced(name))
    ensures Bare(b) && Calm(e) && Contains(RenderKey(b + (Braced(a) + e), a, v), Braced(name))
  {
    hide Contains, ReplaceAll, Plain, Bare, Calm, Touches;
    BracesOf(name);
    PadDiffers(a);
    var q := Braced(name);
    var i, j := Surround(v, q);
    BeginningsAreBare(name, i);
    EndingsAreCalm(name, j);
    if name == Pad(a) {
      b, e := q[..i] + q[..i], q[j..] + q[j..];
      AroundTight(b, e, a, v);
      NestedSurvives(q[..i], v, q[j..], name);
    } else {
      b, e := q[..i], q[j..];
      AroundTight(b, e, a, v);
      Regroup(b, v, e);
      PassSpares(b + (v + e), Pad(a), name, v);
    }
  }

  /** With its padded token they make it directly. */
  lemma PaddedMakes(a: string, v: string, name: string) returns (b: string, e: string)
    requires Plain(a) && Plain(name) && Touches(v, Braced(name))
    ensures Bare(b) && Calm(e) && Contains(b + (v + e), Braced(name))
    ensures RenderKey(b + (Braced(Pad(a)) + e), a, v) == b + (v + e)
  {
    hide Contains, ReplaceAll, Plain, Bare, Calm, Touches;
    BracesOf(name);
    var q := Braced(name);
    var i, j := Surround(v, q);
    BeginningsAreBare(name, i);
    EndingsAreCalm(name, j);
    b, e := q[..i], q[j..];
    Regroup(b, v, e);
    AroundPadded(b, e, a, v);
  }

  lemma {:induction false} AlikeAt(vars: map<string, string>, html: string, o1: seq<string>, o2: seq<string>)
    requires AlwaysAlike(vars) && IsOrder(o1, vars.Keys) && IsOrder(o2, vars.Keys)
    ensures RenderIn(html, o1, vars) == RenderIn(html, o2, vars)
  {
  }

  /** If the order cannot be seen, two keys that alone act on a text may take their turns either way round. */
  lemma AlwaysCommute(vars: map<string, string>, html: string, a: string, k: string)
    requires AlwaysAlike(vars) && a in vars && k in vars && a != k
    requires forall q :: q in vars && q != a && q != k ==> RenderKey(html, q, vars[q]) == html
    ensures RenderKey(RenderKey(html, a, vars[a]), k, vars[k]) == RenderKey(RenderKey(html, k, vars[k]), a, vars[a])
  {
    hide RenderKey, RenderIn, AlwaysAlike;
    var rest := PairLast(vars.Keys, a, k);
    KeptByAll(html, rest, vars);
    RenderSnoc(html, rest, a, vars);
    RenderSnoc(html, rest + [a], k, vars);
    RenderSnoc(html, rest, k, vars);
    RenderSnoc(html, rest + [k], a, vars);
    AlikeAt(vars, html, rest + [a] + [k], rest + [k] + [a]);
  }

  /** A turn leaves alone a text put together from parts without its placeholders and a value that it is not disturbed by. */
  lemma UndisturbedKept(b: string, v: string, e: string, z: string, w: string)
    requires Bare(b) && Calm(e) && Plain(z) && !Disturbs(v, z, w)
    ensures RenderKey(b + (v + e), z, w) == b + (v + e)
  {
    hide ReplaceAll, Contains, Touches;
    PadDiffers(z);
    NotInParts(b, v, e, z);
    NotInParts(b, v, e, Pad(z));
    PassKeeps(b + (v + e), z, w);
    PassKeeps(b + (v + e), Pad(z), w);
  }

  lemma NotInParts(b: string, v: string, e: string, name: string)
    requires Bare(b) && Calm(e) && Plain(name)
    ensures Contains(b + (v + e), Braced(name)) ==> Touches(v, Braced(name))
  {
    hide Contains, Touches, Places;
    PlacesAreContained(b, Braced(name));
    CalmHoldsNone(e, name);
    if Contains(b + (v + e), Braced(name)) { InPartsOrTouches(b, v, e, Braced(name)); }
  }

  /** From the shortest key up: no value disturbs a key as long as its own. */
  lemma {:induction false} LongerUndisturbed(vars: map<string, string>, a: string, k: string, name: string)
    requires AlwaysAlike(vars) && PlainKeys(vars) && a in vars && k in vars && a != k && |k| >= |a|
    requires Names(k, name) && vars[k] != Braced(name)
    ensures !Touches(vars[a], Braced(name))
    decreases |a|, 0
  {
    hide AlwaysAlike, RenderKey, Touches, Contains, Bare, Calm, Braced, Plain;
    PadDiffers(k);
    if Touches(vars[a], Braced(name)) {
      var b, e := TightMakes(a, vars[a], name);
      var html := b + (Braced(a) + e);
      forall q | q in vars && !Names(q, a) ensures RenderKey(html, q, vars[q]) == html {
        AroundUnnamed(b, a, e, q, vars[q]);
      }
      var made := RenderKey(html, a, vars[a]);
      if u :| u in vars && Pad(u) == a {
        PadDiffers(u);
        PadDiffers(a);
        forall q | q in vars && Names(q, a) ensures q == u || q == a { PadIsInjective(q, u); }
        AlwaysCommute(vars, html, u, a);
        AroundPadded(b, e, u, vars[u]);
        NotDisturbing(vars, u, a);
        UndisturbedKept(b, vars[u], e, a, vars[a]);
        TurnLeaves(made, u, name, vars[u]);
        LongerUndisturbed(vars, u, k, name);
        NotInParts(b, vars[u], e, name);
      } else {
        AlwaysCommute(vars, html, a, k);
        KeepsIff(made, k, vars[k]);
      }
    }
  }

  lemma {:induction false} NotDisturbing(vars: map<string, string>, u: string, a: string)
    requires AlwaysAlike(vars) && PlainKeys(vars) && u in vars && a in vars && |a| > |u|
    ensures !Disturbs(vars[u], a, vars[a])
    decreases |u|, 1
  {
    hide AlwaysAlike, Touches;
    if vars[a] != Braced(a) { LongerUndisturbed(vars, u, a, a); }
    if vars[a] != Braced(Pad(a)) { LongerUndisturbed(vars, u, a, Pad(a)); }
  }

  /** And from the longest key down: no value disturbs a key as short as its own. */
  lemma {:induction false} ShorterUndisturbed(vars: map<string, string>, a: string, k: string, name: string, bound: nat)
    requires AlwaysAlike(vars) && PlainKeys(vars) && a in vars && k in vars && a != k && |k| <= |a|
    requires Names(k, name) && vars[k] != Braced(name) && forall q :: q in vars ==> |q| <= bound
    ensures !Touches(vars[a], Braced(name))
    decreases bound - |a|
  {
    hide AlwaysAlike, RenderKey, Touches, Contains, Bare, Calm, Braced, Plain;
    PadDiffers(k);
    PadDiffers(a);
    PadIsInjective(k, a);
    var p := Pad(a);
    PadDiffers(p);
    if Touches(vars[a], Braced(name)) {
      var b, e := PaddedMakes(a, vars[a], name);
      var html := b + (Braced(p) + e);
      forall q | q in vars && !Names(q, p) ensures RenderKey(html, q, vars[q]) == html {
        AroundUnnamed(b, p, e, q, vars[q]);
      }
      forall q | q in vars && Names(q, p) ensures q == a || q == p { PadIsInjective(q, a); }
      var made := b + (vars[a] + e);
      if p in vars {
        AlwaysCommute(vars, html, a, p);
        AroundTight(b, e, p, vars[p]);
        TurnLeaves(made, p, name, vars[p]);
        ShorterUndisturbed(vars, p, k, name, bound);
        if vars[a] != Braced(a) { ShorterUndisturbed(vars, p, a, a, bound); }
        if vars[a] != Braced(p) { ShorterUndisturbed(vars, p, a, p, bound); }
        OwnIsKept(b, vars[p], e, p, a, vars[a]);
        OwnMakesNone(b, vars[p], e, p, name);
      } else {
        AlwaysCommute(vars, html, a, k);
        KeepsIff(made, k, vars[k]);
      }
    }
  }

  /** What a key's turn makes of its own token holds another's placeholder only if its value touches it. */
  lemma {:induction false} OwnMakesNone(b: string, v: string, e: string, p: string, name: string)
    requires Bare(b) && Calm(e) && Plain(p) && Plain(name)
    ensures Contains(ReplaceAll(b + (v + e), Braced(Pad(p)), v), Braced(name)) ==> Touches(v, Braced(name))
  {
    hide Contains, Touches, ReplaceAll, Bare, Calm;
    NotInParts(b, v, e, name);
    var own := ReplaceAll(b + (v + e), Braced(Pad(p)), v);
    if Contains(own, Braced(name)) { PassMakesNone(b + (v + e), Braced(Pad(p)), v, Braced(name)); }
  }

  lemma {:induction false} OwnIsKept(b: string, v: string, e: string, p: string, z: string, w: string)
    requires Bare(b) && Calm(e) && Plain(p) && Plain(z) && !Disturbs(v, z, w)
    ensures var own := ReplaceAll(b + (v + e), Braced(Pad(p)), v); RenderKey(own, z, w) == own
  {
    hide Contains, Touches, ReplaceAll, Bare, Calm;
    PadDiffers(z);
    OwnMakesNone(b, v, e, p, z);
    OwnMakesNone(b, v, e, p, Pad(z));
    var own := ReplaceAll(b + (v + e), Braced(Pad(p)), v);
    PassKeeps(own, z, w);
    PassKeeps(own, Pad(z), w);
  }

  lemma AlikeIsUndisturbed(vars: map<string, string>)
    requires AlwaysAlike(vars) && PlainKeys(vars)
    ensures !Disturbed(vars)
  {
    hide AlwaysAlike, Touches;
    var bound := LongestKey(vars.Keys);
    forall a, k | a in vars && k in vars && a != k ensures !Disturbs(vars[a], k, vars[k]) {
      forall name | Names(k, name) && vars[k] != Braced(name) ensures !Touches(vars[a], Braced(name)) {
        if |k| >= |a| { LongerUndisturbed(vars, a, k, name); } else { ShorterUndisturbed(vars, a, k, name, bound); }
      }
    }
  }

  /** Nor have a key and its padded form different values. */
  lemma AlikeHasNoClash(vars: map<string, string>, k: string)
    requires AlwaysAlike(vars) && PlainKeys(vars) && !Disturbed(vars) && k in vars && Pad(k) in vars
    ensures vars[k] == vars[Pad(k)]
  {
    hide AlwaysAlike, RenderKey, Touches, Contains, ReplaceAll, Plain, Braced;
    var p := Pad(k);
    PadDiffers(k);
    PadDiffers(p);
    var v, w := vars[k], vars[p];
    assert !Disturbs(v, p, w) && !Disturbs(w, k, v);
    forall q | q in vars && q != k && q != p ensures RenderKey(Braced(p), q, vars[q]) == Braced(p) {
      PadIsInjective(q, k);
      UnnamedStays(p, q, vars[q]);
    }
    AlwaysCommute(vars, Braced(p), k, p);
    LoneToken(p, k, v);
    LoneToken(p, p, w);
    EmptyAround(v);
    EmptyAround(w);
    UndisturbedKept("", v, "", p, w);
    OwnIsKept("", w, "", p, k, v);
    assert v == OwnText(p, w);
    if Contains(w, Braced(Pad(p))) && w != Braced(Pad(p)) {
      HoldsBothAny(w, Pad(p));
      ContainedTouches(v, Braced(Pad(p)));
    }
    OwnTextIsValue(p, w);
  }

  lemma EmptyAround(v: string)
    ensures "" + (v + "") == v && Bare("") && Calm("")
  {
  }

  lemma {:induction false} HoldsBothAny(w: string, name: string)
    requires Plain(name) && Contains(w, Braced(name))
    ensures Contains(ReplaceAll(w, Braced(name), w), Braced(name))
  {
    HoldsBoth(w, Braced(name), name);
  }

  lemma ContainedTouches(v: string, q: string)
    requires Contains(v, q)
    ensures Touches(v, q)
  {
  }

  // ----- Both directions -----

  /**
    For any values, and over every text whatever: all orders of the keys render alike if and only if no key clashes
    with its padded form, and no value touches another key's placeholder, unless that key stands for the placeholder.
   */
  lemma AlwaysAlikeIff(vars: map<string, string>)
    requires PlainKeys(vars)
    ensures AlwaysAlike(vars) <==> !Clash(vars) && !Disturbed(vars)
  {
    hide AlwaysAlike, Disturbed;
    if AlwaysAlike(vars) {
      AlikeIsUndisturbed(vars);
      forall k | k in vars && Pad(k) in vars ensures vars[k] == vars[Pad(k)] {
        AlikeHasNoClash(vars, k);
      }
    }
    if !Clash(vars) && !Disturbed(vars) { UndisturbedAreAlike(vars); }
  }

  // ----- Values without braces -----

  lemma PlainTouches(v: string, name: string)
    requires Plain(v) && Plain(name)
    ensures Touches(v, Braced(name)) <==> Contains(name, v)
  {
    var q := Braced(name);
    BracesOf(name);
    if Contains(name, v) {
      var o := Index(name, v);
      assert q[2 + o..2 + o + |v|] == name[o..o + |v|];
      ContainsAt(q, v, 2 + o);
    }
    if Contains(q, v) { PlainPartIsInName(v, name); }
    if Contains(v, q) { ContainsChar(v, q, q[0]); }
    forall m | 0 < m < |q| && m <= |v| ensures !EndsInto(v, q, m) && !BeginsFrom(v, q, m) {
      assert v[|v| - m..][0] in v && q[..m][0] == '{';
      assert v[..m][m - 1] in v && q[|q| - m..][m - 1] == '}';
    }
  }

  lemma PlainPartIsInName(v: string, name: string)
    requires Plain(v) && Plain(name) && Contains(Braced(name), v)
    ensures Contains(name, v)
  {
    hide Contains;
    var q := Braced(name);
    var o := FindAt(q, v);
    if v == "" {
      ContainsAt(name, v, 0);
    } else {
      assert v[0] == q[o] && v[|v| - 1] == q[o + |v| - 1];
      assert v[0] in v && v[|v| - 1] in v;
      assert 2 <= o && o + |v| <= |name| + 2;
      assert q[o..o + |v|] == name[o - 2..o - 2 + |v|];
      ContainsAt(name, v, o - 2);
    }
  }

  lemma InPadded(k: string, v: string)
    requires Contains(k, v)
    ensures Contains(Pad(k), v)
  {
    var o := Index(k, v);
    assert Pad(k)[1 + o..1 + o + |v|] == k[o..o + |v|];
    ContainsAt(Pad(k), v, 1 + o);
  }

  lemma PlainIsNotBraced(w: string, name: string)
    requires Plain(w)
    ensures w != Braced(name)
  {
    assert Braced(name)[0] == '{';
  }

  /** For values without braces: if and only if no keys clash and no value is part of another key's padded name. */
  lemma AlwaysAlikeIffNoPart(vars: map<string, string>)
    requires forall k :: k in vars ==> Plain(k) && Plain(vars[k])
    ensures AlwaysAlike(vars)
       <==> !Clash(vars) && forall a, k :: a in vars && k in vars && a != k ==> !Contains(Pad(k), vars[a])
  {
    hide AlwaysAlike, Touches, Contains, Plain, Braced;
    AlwaysAlikeIff(vars);
    forall a, k | a in vars && k in vars && a != k
      ensures Disturbs(vars[a], k, vars[k]) <==> Contains(Pad(k), vars[a])
    {
      PadDiffers(k);
      PlainTouches(vars[a], k);
      PlainTouches(vars[a], Pad(k));
      PlainIsNotBraced(vars[k], k);
      PlainIsNotBraced(vars[k], Pad(k));
      if Contains(k, vars[a]) { InPadded(k, vars[a]); }
    }
  }

  /** The empty value is: in a text with one token inside another, it completes the outer one or does not. */
  lemma NestedTokenShowsOrder(a: string, b: string, x: string)
    requires Plain(a) && Plain(b) && Apart(a, b) && Calm(x)
    ensures var vars, html := map[a := x, b := ""], "{{" + a + (Braced(b) + "}}");
            && OrderIndependent(vars)
            && RenderIn(html, [b, a], vars) == x
            && RenderIn(html, [a, b], vars) == Braced(a)
  {
    hide ReplaceAll, RenderKey, Calm;
    var vars, html := map[a := x, b := ""], "{{" + a + (Braced(b) + "}}");
    var q := Braced(a);
    BracesOf(a);
    PadDiffers(a);
    PadDiffers(b);
    assert q[..|a| + 2] == "{{" + a && q[|a| + 2..] == "}}";
    BeginningsAreBare(a, |a| + 2);
    EndingsAreCalm(a, |a| + 2);
    RenderPair(html, a, b, vars);
    RenderPair(html, b, a, vars);
    AroundTight("{{" + a, "}}", b, "");
    assert "{{" + a + ("" + "}}") == q;
    LoneTokenIsKept(Pad(b), a, "");
    AroundUnnamed("{{" + a, b, "}}", a, x);
    LoneToken(a, a, x);
    CalmPass(x, Pad(a), x);
    NoClashOfTwo(a, b, x);
    OrderIndependentIffNoClash(vars);
  }

  lemma NoClashOfTwo(a: string, b: string, x: string)
    requires Plain(a) && Plain(b) && Apart(a, b) && Calm(x)
    ensures var vars := map[a := x, b := ""]; PlainVars(vars) && !Clash(vars)
  {
    PadDiffers(a);
    PadDiffers(b);
  }
}
