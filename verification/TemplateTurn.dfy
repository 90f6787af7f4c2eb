/**
  One key's turn on any text whatever: exactly when it leaves the text alone.
 */
module TemplateTurn {
  import opened Text
  import opened Template

  lemma PadDiffers(k: string)
    ensures Pad(k) != k && |Pad(k)| == |k| + 2 && (Plain(k) ==> Plain(Pad(k)))
  {
  }

  lemma PrefixOfSum(p: string, u: string, e: string)
    requires |u| >= |p|
    ensures p <= u + e <==> p <= u
    ensures p <= u ==> (u + e)[|p|..] == u[|p|..] + e
  {
    assert (u + e)[..|p|] == u[..|p|];
  }

  lemma ContainsAtEnd(u: string, p: string)
    ensures Contains(u + p, p)
  {
    assert (u + p)[|u|..|u| + |p|] == p;
    ContainsAt(u + p, p, |u|);
  }

  // ----- Counting occurrences -----

  /** How often the replacement takes place. */
  function Hits(s: string, p: string): nat
    requires p != ""
  {
    if s == "" then 0 else if p <= s then 1 + Hits(s[|p|..], p) else Hits(s[1..], p)
  }

  /** At how many places the pattern stands. */
  function Places(s: string, p: string): nat
    requires p != ""
  {
    if s == "" then 0 else Places(s[1..], p) + if p <= s then 1 else 0
  }

  lemma {:induction false} ReplaceLength(s: string, p: string, w: string)
    requires p != ""
    ensures |ReplaceAll(s, p, w)| == |s| + Hits(s, p) * (|w| - |p|)
  {
    if s != "" {
      if p <= s {
        ReplaceLength(s[|p|..], p, w);
        OneMoreTime(Hits(s[|p|..], p), |w| - |p|);
      } else {
        ReplaceLength(s[1..], p, w);
      }
    }
  }

  lemma OneMoreTime(h: nat, d: int)
    ensures (1 + h) * d == d + h * d
  {
  }

  lemma {:induction false} NoHits(s: string, p: string, w: string)
    requires p != "" && Hits(s, p) == 0
    ensures ReplaceAll(s, p, w) == s
  {
    if s != "" { NoHits(s[1..], p, w); }
  }

  lemma {:induction false} PlacesJoin(a: string, b: string, p: string)
    requires p != ""
    ensures Places(a + b, p) >= Places(a, p) + Places(b, p)
  {
    if a == "" {
      assert a + b == b;
    } else {
      PlacesJoin(a[1..], b, p);
      TailOfSum(a, b);
      assert p <= a ==> p <= a + b;
    }
  }

  lemma {:induction false} ReplaceBringsIn(s: string, p: string, w: string, q: string)
    requires p != "" && q != "" && Places(w, q) >= 1
    ensures Places(ReplaceAll(s, p, w), q) >= Hits(s, p)
  {
    if s != "" {
      if p <= s {
        ReplaceBringsIn(s[|p|..], p, w, q);
        PlacesJoin(w, ReplaceAll(s[|p|..], p, w), q);
      } else {
        ReplaceBringsIn(s[1..], p, w, q);
        PlacesJoin([s[0]], ReplaceAll(s[1..], p, w), q);
      }
    }
  }

  lemma {:induction false} CalmHasNoPlace(lit: string, rest: string, raw: string)
    requires Calm(lit)
    ensures Places(lit + rest, Braced(raw)) == Places(rest, Braced(raw))
  {
    var pat := Braced(raw);
    if lit == "" {
      assert lit + rest == rest;
    } else {
      var s := lit + rest;
      TailOfSum(lit, rest);
      CalmHasNoPlace(lit[1..], rest, raw);
      assert !(pat <= s) by {
        assert pat[0] == '{' && pat[1] == '{';
        assert |lit| > 1 ==> s[1] == lit[1];
      }
    }
  }

  /** A placeholder is one place for its own pattern, none for another, and overlaps no other place. */
  lemma {:induction false} TokenIsOnePlace(q: string, rest: string, r: string)
    requires Plain(q) && Plain(r)
    ensures Places(Braced(q) + rest, Braced(r)) == Places(rest, Braced(r)) + if q == r then 1 else 0
  {
    var pat, s, tail := Braced(r), Braced(q) + rest, q + "}}" + rest;
    assert s[1..] == "{" + tail && s[1..][1..] == tail == (q + "}}") + rest;
    assert !(pat <= s[1..]) by {
      assert s[1..][1] == (q + "}}")[0];
      assert pat[1] == '{';
    }
    CalmHasNoPlace(q + "}}", rest, r);
    if pat <= s {
      assert r + "}}" == pat[2..] <= s[2..] == q + "}}" + rest;
      NameIsDetermined(r, q, rest);
    }
  }

  lemma {:induction false} HitsArePlaces(s: string, r: string)
    requires Plain(r)
    ensures Hits(s, Braced(r)) == Places(s, Braced(r))
  {
    var p := Braced(r);
    if s != "" {
      if p <= s {
        HitsArePlaces(s[|p|..], r);
        TokenIsOnePlace(r, s[|p|..], r);
        PrefixAndRest(p, s);
      } else {
        HitsArePlaces(s[1..], r);
      }
    }
  }

  /** Another key's pass keeps every place and adds what its value brings in. */
  lemma {:induction false} PassAdds(t: string, q: string, r: string, w: string)
    requires Plain(q) && Plain(r) && q != r
    ensures Places(ReplaceAll(t, Braced(r), w), Braced(q)) >= Places(t, Braced(q))
    ensures Places(w, Braced(q)) >= 1
            ==> Places(ReplaceAll(t, Braced(r), w), Braced(q)) >= Hits(t, Braced(r)) + Places(t, Braced(q))
  {
    hide Braced, Plain;
    BracedIsNot(q, r);
    var p, o := Braced(r), Braced(q);
    if t != "" {
      if p <= t {
        var rest := t[|p|..];
        PassAdds(rest, q, r, w);
        PlacesJoin(w, ReplaceAll(rest, p, w), o);
        PrefixAndRest(p, t);
        TokenIsOnePlace(r, rest, q);
      } else if o <= t {
        var rest := t[|o|..];
        PassAdds(rest, q, r, w);
        PrefixAndRest(o, t);
        OtherTokenIsKept(r, q, rest, w);
        TokenIsOnePlace(q, rest, q);
        TokenIsOnePlace(q, ReplaceAll(rest, p, w), q);
        HitsSkipToken(q, rest, r);
      } else {
        PassAdds(t[1..], q, r, w);
        PlacesJoin([t[0]], ReplaceAll(t[1..], p, w), o);
      }
    }
  }

  lemma BracedIsNot(q: string, r: string)
    ensures |Braced(q)| >= 4 && Braced(q) != "" && Braced(r) != ""
  {
  }

  lemma {:induction false} HitsSkipToken(q: string, rest: string, r: string)
    requires Plain(q) && Plain(r) && q != r
    ensures Hits(Braced(q) + rest, Braced(r)) == Hits(rest, Braced(r))
  {
    TokenIsOnePlace(q, rest, r);
    HitsArePlaces(Braced(q) + rest, r);
    HitsArePlaces(rest, r);
  }

  lemma {:induction false} PlacesAreContained(s: string, p: string)
    requires p != ""
    ensures Places(s, p) > 0 <==> Contains(s, p)
  {
    if s != "" { PlacesAreContained(s[1..], p); }
  }

  // ----- What a pass leaves -----

  lemma {:induction false} ReplaceBySelf(s: string, p: string)
    requires p != ""
    ensures ReplaceAll(s, p, p) == s
  {
    if s != "" {
      if p <= s {
        ReplaceBySelf(s[|p|..], p);
        PrefixAndRest(p, s);
      } else {
        ReplaceBySelf(s[1..], p);
      }
    }
  }

  /** A pass leaves alone a text without its placeholder, and one whose placeholder it puts back. */
  lemma {:induction false} PassKeeps(s: string, raw: string, w: string)
    requires Plain(raw) && (Contains(s, Braced(raw)) ==> w == Braced(raw))
    ensures ReplaceAll(s, Braced(raw), w) == s
  {
    hide Contains;
    if Contains(s, Braced(raw)) {
      ReplaceBySelf(s, Braced(raw));
    } else {
      PlacesAreContained(s, Braced(raw));
      HitsArePlaces(s, raw);
      NoHits(s, Braced(raw), w);
    }
  }

  lemma {:induction false} SameLengthIsSelf(s: string, p: string, w: string)
    requires p != "" && ReplaceAll(s, p, w) == s && Hits(s, p) > 0 && |w| == |p|
    ensures w == p
  {
    if p <= s {
      assert s[..|p|] == p && (w + ReplaceAll(s[|p|..], p, w))[..|w|] == w;
    } else {
      SameLengthIsSelf(s[1..], p, w);
    }
  }

  lemma Product(n: nat, d: int)
    ensures d >= 1 ==> n * d >= n
    ensures d <= 0 ==> n * d <= 0
    ensures d == 0 ==> n * d == 0
    ensures d == 1 ==> n * d == n
    ensures d <= -1 ==> n * d + n <= 0
    ensures d == -1 ==> n * d + n == 0
  {
  }

  /** How long the text stays is decided by how often each of a key's two passes hits. */
  lemma {:induction false} TurnBalance(s: string, k: string, w: string)
    requires RenderKey(s, k, w) == s
    ensures var n1, n2, d := Hits(s, Braced(k)), Hits(ReplaceAll(s, Braced(k), w), Braced(Pad(k))), |w| - |Braced(k)|;
            && (n1 > 0 || n2 > 0 ==> 0 <= d <= 2)
            && (d == 0 ==> n2 == 0) && (d == 1 ==> n1 == n2) && (d == 2 ==> n1 == 0)
  {
    hide Hits, ReplaceAll;
    PadDiffers(k);
    var s1 := ReplaceAll(s, Braced(k), w);
    var n1, n2, d := Hits(s, Braced(k)), Hits(s1, Braced(Pad(k))), |w| - |Braced(k)|;
    ReplaceLength(s, Braced(k), w);
    ReplaceLength(s1, Braced(Pad(k)), w);
    assert |Braced(Pad(k))| == |Braced(k)| + 2;
    assert n1 * d + n2 * (d - 2) == 0;
    Product(n1, d);
    Product(n2, d - 2);
  }

  /** Up to its first hit a pass changes nothing, and there it puts the value. */
  lemma {:induction false} PassHead(t: string, p: string, w: string, m: nat) returns (j: nat)
    requires p != "" && m <= |t|
    ensures j <= m && |ReplaceAll(t, p, w)| >= j && ReplaceAll(t, p, w)[..j] == t[..j]
    ensures j < m ==> p <= t[j..] && |ReplaceAll(t, p, w)| >= j + |w| && ReplaceAll(t, p, w)[j..j + |w|] == w
    ensures j == m ==> forall i :: 0 <= i < m ==> !(p <= t[i..])
  {
    if m == 0 || p <= t {
      j := 0;
    } else {
      var i := PassHead(t[1..], p, w, m - 1);
      j := i + 1;
      var r := ReplaceAll(t[1..], p, w);
      assert ReplaceAll(t, p, w) == [t[0]] + r;
      assert forall l :: 0 < l <= |t| ==> t[l..] == t[1..][l - 1..];
      assert i < m - 1 ==> ([t[0]] + r)[j..j + |w|] == r[i..i + |w|];
      assert t[..j] == [t[0]] + t[1..][..i];
    }
  }

  // ----- A value one longer than the tight placeholder -----

  lemma BracesOf(k: string)
    requires Plain(k)
    ensures var p := Braced(k); |p| == |k| + 4 && p[0] == p[1] == '{' && forall i :: 2 <= i < |p| ==> p[i] != '{'
  {
  }

  /** Unless it holds the tight placeholder, or is the padded one less its last brace, the first change stays. */
  lemma {:induction false} FirstChange(s: string, k: string, w: string)
    requires Plain(k) && |w| == |Braced(k)| + 1 && Hits(s, Braced(k)) > 0
    requires !Contains(w, Braced(k)) && w != Braced(Pad(k))[..|w|]
    ensures RenderKey(s, k, w) != s
  {
    hide Hits, Contains, Braced, Plain;
    PadDiffers(k);
    BracesOf(k);
    BracesOf(Pad(k));
    var p1, p2 := Braced(k), Braced(Pad(k));
    HitsUnfold(s, p1);
    if p1 <= s {
      ChangeHere(s, k, w);
    } else {
      var s1 := ReplaceAll(s, p1, w);
      if p2 <= s1 {
        ChangeBehind(s, k, w);
      } else {
        assert s1[1..] == ReplaceAll(s[1..], p1, w);
        assert ReplaceAll(s1, p2, w) == [s[0]] + RenderKey(s[1..], k, w);
        FirstChange(s[1..], k, w);
      }
    }
  }

  lemma {:induction false} HitsUnfold(s: string, p: string)
    requires p != ""
    ensures Hits(s, p) == if s == "" then 0 else if p <= s then 1 + Hits(s[|p|..], p) else Hits(s[1..], p)
  {
  }

  lemma SharedPrefix(p: string, s: string, w: string)
    requires p <= s && w <= s && |w| <= |p|
    ensures w == p[..|w|]
  {
    assert s[..|p|][..|w|] == s[..|w|];
  }

  /** The text starts with the tight placeholder. */
  lemma ChangeHere(s: string, k: string, w: string)
    requires Plain(k) && |w| == |Braced(k)| + 1 && Braced(k) <= s
    requires !Contains(w, Braced(k)) && w != Braced(Pad(k))[..|w|]
    ensures RenderKey(s, k, w) != s
  {
    hide Contains, Braced, Plain;
    PadDiffers(k);
    BracesOf(k);
    BracesOf(Pad(k));
    var p1, p2 := Braced(k), Braced(Pad(k));
    var l, s1 := |p1|, w + ReplaceAll(s[|p1|..], p1, w);
    var r := ReplaceAll(s1, p2, w);
    assert r == RenderKey(s, k, w);
    var j := PassHead(s1, p2, w, l + 1);
    assert s1[..l + 1] == w && s1[0..] == s1;
    if p2 <= s1 { SharedPrefix(p2, s1, w); }
    if j >= l {
      assert w[..l] != p1 by { if w[..l] == p1 { ContainsAt(w, p1, 0); } }
      assert r[..j][..l] == w[..l] && s[..l] == p1;
    } else {
      assert r[..j][0] == w[0] && r[j..j + |w|] == w;
      if w[0] == '{' {
        assert r[j] == r[j..j + |w|][0] && r[j + 1] == r[j..j + |w|][1];
        assert s1[j] == s1[j..][0] == p2[0];
        assert s[j] == p1[j] && s[2] == p1[2];
      }
    }
  }

  /** The padded placeholder comes first once the tight one has been replaced. */
  lemma {:induction false} ChangeBehind(s: string, k: string, w: string)
    requires Plain(k) && |w| == |Braced(k)| + 1 && Hits(s, Braced(k)) > 0 && !(Braced(k) <= s)
    requires Braced(Pad(k)) <= ReplaceAll(s, Braced(k), w) && w != Braced(Pad(k))[..|w|]
    ensures RenderKey(s, k, w) != s
  {
    hide Contains, Braced, Plain, Hits;
    PadDiffers(k);
    BracesOf(k);
    BracesOf(Pad(k));
    var p1, p2 := Braced(k), Braced(Pad(k));
    var s1 := ReplaceAll(s, p1, w);
    var r := w + ReplaceAll(s1[|p2|..], p2, w);
    assert r == RenderKey(s, k, w) && r[..|w|] == w;
    var j := FirstPlace(s, p1, w);
    if j >= |p2| {
      assert s[..|p2|] == s1[..j][..|p2|] == p2;
      assert s[..|w|] == p2[..|w|];
    } else {
      assert s1[j] == s1[j..j + |w|][0] && s1[j] == p2[j];
      assert s[0] == s1[..j][0] == p2[0];
      if w[0] == '{' {
        assert j == 1;
        assert s1[2] == s1[1..1 + |w|][1] == p2[2];
        assert s[1] == s[1..][0] == p1[0];
      }
    }
  }

  lemma FirstPlace(s: string, p: string, w: string) returns (j: nat)
    requires p != "" && Hits(s, p) > 0 && !(p <= s)
    ensures 0 < j < |s| && p <= s[j..] && |ReplaceAll(s, p, w)| >= j + |w|
    ensures ReplaceAll(s, p, w)[..j] == s[..j] && ReplaceAll(s, p, w)[j..j + |w|] == w
  {
    j := PassHead(s, p, w, |s|);
    assert s[0..] == s;
    if forall i :: 0 <= i < |s| ==> !(p <= s[i..]) { NoneMeansNoHit(s, p); }
  }

  lemma {:induction false} NoneMeansNoHit(s: string, p: string)
    requires p != "" && forall i :: 0 <= i < |s| ==> !(p <= s[i..])
    ensures Hits(s, p) == 0
  {
    if s != "" {
      assert s[0..] == s;
      assert forall i :: 0 <= i < |s| - 1 ==> s[1..][i..] == s[i + 1..];
      NoneMeansNoHit(s[1..], p);
    }
  }

  function Number(s: string, c: char): nat { if s == "" then 0 else Number(s[1..], c) + if s[0] == c then 1 else 0 }

  lemma {:induction false} NumberJoin(a: string, b: string, c: char)
    ensures Number(a + b, c) == Number(a, c) + Number(b, c)
  {
    if a == "" {
      assert a + b == b;
    } else {
      NumberJoin(a[1..], b, c);
      TailOfSum(a, b);
    }
  }

  /** Each hit takes the pattern's characters out and brings the value's in. */
  lemma {:induction false} ReplaceNumber(s: string, p: string, w: string, c: char)
    requires p != "" && Number(p, c) == Number(w, c) + 1
    ensures Number(ReplaceAll(s, p, w), c) + Hits(s, p) == Number(s, c)
  {
    if s != "" {
      if p <= s {
        ReplaceNumber(s[|p|..], p, w, c);
        PrefixAndRest(p, s);
        NumberJoin(p, s[|p|..], c);
        NumberJoin(w, ReplaceAll(s[|p|..], p, w), c);
      } else {
        ReplaceNumber(s[1..], p, w, c);
        NumberJoin([s[0]], ReplaceAll(s[1..], p, w), c);
        NumberJoin([s[0]], s[1..], c);
        assert s == [s[0]] + s[1..];
      }
    }
  }

  lemma {:induction false} NoneOf(s: string, c: char)
    requires c !in s
    ensures Number(s, c) == 0
  {
    if s != "" { NoneOf(s[1..], c); }
  }

  lemma ClosingBraces(k: string)
    requires Plain(k)
    ensures Number(Braced(k), '}') == 2 && Number(Braced(k)[..|k| + 3], '}') == 1
  {
    NoneOf("{{" + k, '}');
    NumberJoin("{{" + k, "}}", '}');
    NumberJoin("{{" + k, "}", '}');
    assert Braced(k)[..|k| + 3] == "{{" + k + "}";
    assert "}}"[1..] == "}" && "}"[1..] == "";
  }

  /** A value one longer than the tight placeholder changes every text in which that is hit. */
  lemma {:induction false} OneLongerChanges(s: string, k: string, w: string)
    requires Plain(k) && |w| == |Braced(k)| + 1 && Hits(s, Braced(k)) > 0
    ensures RenderKey(s, k, w) != s
  {
    hide Hits, Places, ReplaceAll, Contains, Number, Braced, Plain;
    PadDiffers(k);
    BracesOf(k);
    BracesOf(Pad(k));
    var p1, p2 := Braced(k), Braced(Pad(k));
    var s1 := ReplaceAll(s, p1, w);
    if RenderKey(s, k, w) == s {
      TurnBalance(s, k, w);
      if Contains(w, p1) {
        PlacesAreContained(w, p1);
        HitsArePlaces(s, k);
        ReplaceBringsIn(s, p1, w, p1);
        PassAdds(s1, k, Pad(k), w);
      } else if w == p2[..|w|] {
        ClosingBraces(k);
        ClosingBraces(Pad(k));
        ReplaceNumber(s, p1, w, '}');
        ReplaceNumber(s1, p2, w, '}');
      } else {
        FirstChange(s, k, w);
      }
    }
  }

  /** Rendering key k, whose value is w, would change v. */
  predicate Reaches(v: string, k: string, w: string) {
    || (Contains(v, Braced(k)) && w != Braced(k))
    || (Contains(v, Braced(Pad(k))) && w != Braced(Pad(k)))
  }

  /** Exactly when a key's turn leaves a text alone, for any text and any value. */
  lemma KeepsIff(s: string, k: string, w: string)
    requires Plain(k)
    ensures RenderKey(s, k, w) == s <==> !Reaches(s, k, w)
  {
    hide Hits, Places, ReplaceAll, Contains, Braced, Plain;
    PadDiffers(k);
    BracesOf(k);
    BracesOf(Pad(k));
    var p1, p2 := Braced(k), Braced(Pad(k));
    var s1 := ReplaceAll(s, p1, w);
    HitsArePlaces(s, k);
    PlacesAreContained(s, p1);
    HitsArePlaces(s, Pad(k));
    PlacesAreContained(s, p2);
    if RenderKey(s, k, w) == s {
      TurnBalance(s, k, w);
      if Hits(s, p1) == 0 {
        NoHits(s, p1, w);
        if Hits(s, p2) > 0 { SameLengthIsSelf(s, p2, w); }
      } else if |w| == |p1| + 1 {
        OneLongerChanges(s, k, w);
      } else {
        NoHits(s1, p2, w);
        SameLengthIsSelf(s, p1, w);
      }
    }
    if !Reaches(s, k, w) {
      PassKeeps(s, k, w);
      PassKeeps(s, Pad(k), w);
    }
  }
}
