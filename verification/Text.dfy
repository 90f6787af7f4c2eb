/**
  The string operations of Go's `strings` package that the modelled code leans on,
  over ASCII text: a `char` stands for one byte.
 */
module Text {

  datatype Option<+T> = None | Some(value: T)

  function LowerChar(c: char): char {
    if 'A' <= c <= 'Z' then (c as int + 32) as char else c
  }

  function ToLower(s: string): (r: string)
    ensures |r| == |s|
    ensures forall i :: 0 <= i < |s| ==> r[i] == LowerChar(s[i])
  {
    if s == "" then "" else [LowerChar(s[0])] + ToLower(s[1..])
  }

  predicate IsSpace(c: char) {
    c == ' ' || 9 <= c as int <= 13
  }

  function TrimLeft(s: string): string {
    if s != "" && IsSpace(s[0]) then TrimLeft(s[1..]) else s
  }

  function TrimRight(s: string): string {
    if s != "" && IsSpace(s[|s| - 1]) then TrimRight(s[..|s| - 1]) else s
  }

  function TrimSpace(s: string): string {
    TrimRight(TrimLeft(s))
  }

  predicate Trimmed(s: string) {
    s == "" || (!IsSpace(s[0]) && !IsSpace(s[|s| - 1]))
  }

  lemma {:induction false} TrimLeftIsSuffix(s: string)
    ensures |TrimLeft(s)| <= |s| && TrimLeft(s) == s[|s| - |TrimLeft(s)|..]
    ensures TrimLeft(s) != "" ==> !IsSpace(TrimLeft(s)[0])
  {
    if s != "" && IsSpace(s[0]) {
      TrimLeftIsSuffix(s[1..]);
    }
  }

  lemma {:induction false} TrimRightIsPrefix(s: string)
    ensures TrimRight(s) <= s
    ensures TrimRight(s) != "" ==> !IsSpace(TrimRight(s)[|TrimRight(s)| - 1])
  {
    if s != "" && IsSpace(s[|s| - 1]) {
      TrimRightIsPrefix(s[..|s| - 1]);
    }
  }

  /** What trimming returns is trimmed and occurs in the input as one piece. */
  lemma TrimSpaceIsTrimmed(s: string)
    ensures Trimmed(TrimSpace(s))
    ensures exists i, j :: 0 <= i <= j <= |s| && TrimSpace(s) == s[i..j]
    ensures forall c :: c in TrimSpace(s) ==> c in s
  {
    hide TrimLeft, TrimRight, IsSpace;
    TrimLeftIsSuffix(s);
    TrimRightIsPrefix(TrimLeft(s));
    var i := |s| - |TrimLeft(s)|;
    var j := i + |TrimSpace(s)|;
    assert TrimSpace(s) == s[i..j];
  }

  lemma TrimmedIsFixed(s: string)
    requires Trimmed(s)
    ensures TrimSpace(s) == s
  {
  }

  lemma {:induction false} LowerIsIdempotent(s: string)
    ensures ToLower(ToLower(s)) == ToLower(s)
  {
  }

  lemma SlicesShift(s: string)
    requires s != ""
    ensures forall j :: 0 < j <= |s| ==> s[j..] == s[1..][j - 1..]
    ensures forall i, j :: 0 <= i <= j < |s| ==> s[1..][i..j] == s[i + 1..j + 1]
  {
  }

  /** Position of the first occurrence of `p` in `s`, or -1. */
  function Index(s: string, p: string): (r: int)
    ensures -1 <= r <= |s|
    ensures r >= 0 ==> r + |p| <= |s| && s[r..r + |p|] == p
    ensures forall j :: 0 <= j < (if r < 0 then |s| + 1 else r) ==> !(p <= s[j..])
  {
    if p <= s then 0
    else if s == "" then -1
    else
      var r := Index(s[1..], p);
      SlicesShift(s);
      if r < 0 then -1 else r + 1
  }

  /** Position of the last occurrence of `p` in `s`, or -1. */
  function LastIndex(s: string, p: string): (r: int)
    ensures -1 <= r <= |s|
    ensures r >= 0 ==> r + |p| <= |s| && s[r..r + |p|] == p
    ensures forall j :: (if r < 0 then 0 else r + 1) <= j <= |s| ==> !(p <= s[j..])
  {
    if s == "" then (if p == "" then 0 else -1)
    else
      var r := LastIndex(s[1..], p);
      SlicesShift(s);
      if r >= 0 then r + 1 else if p <= s then 0 else -1
  }

  predicate Contains(s: string, p: string) {
    Index(s, p) >= 0
  }

  lemma ContainsAt(s: string, p: string, i: nat)
    requires i + |p| <= |s| && s[i..i + |p|] == p
    ensures Contains(s, p)
  {
    assert p <= s[i..];
  }

  lemma ContainsChar(s: string, p: string, c: char)
    requires Contains(s, p) && c in p
    ensures c in s
  {
    var i := Index(s, p);
    var k :| 0 <= k < |p| && p[k] == c;
    assert s[i..i + |p|][k] == s[i + k];
  }

  /** The first occurrence is found by exhibiting it. */
  lemma {:induction false} IndexIs(s: string, p: string, i: nat)
    requires i + |p| <= |s| && s[i..i + |p|] == p
    requires forall j :: 0 <= j < i ==> !(p <= s[j..])
    ensures Index(s, p) == i
  {
    assert p <= s[i..];
    var r := Index(s, p);
    assert r >= 0 && p <= s[r..];
  }

  lemma {:induction false} IndexAbsent(s: string, p: string)
    requires forall j :: 0 <= j <= |s| ==> !(p <= s[j..])
    ensures Index(s, p) == -1
  {
    var r := Index(s, p);
    assert !(p <= s[if r < 0 then 0 else r..]);
  }

  lemma {:induction false} IndexOfAbsentChar(s: string, c: char)
    requires c !in s
    ensures Index(s, [c]) == -1
  {
    forall j | 0 <= j <= |s| ensures !([c] <= s[j..]) {
      assert j < |s| ==> s[j..][0] == s[j];
    }
    IndexAbsent(s, [c]);
  }

  /** Non-overlapping replacement from the left; `pat` is never empty in the modelled code. */
  function ReplaceAll(s: string, pat: string, sub: string): string
    requires pat != ""
  {
    if s == "" then ""
    else if pat <= s then sub + ReplaceAll(s[|pat|..], pat, sub)
    else [s[0]] + ReplaceAll(s[1..], pat, sub)
  }

  function Split(s: string, c: char): (parts: seq<string>)
    ensures |parts| >= 1
  {
    if s == "" then [""]
    else
      var rest := Split(s[1..], c);
      if s[0] == c then [""] + rest else [[s[0]] + rest[0]] + rest[1..]
  }

  function Join(parts: seq<string>, sep: string): string {
    if parts == [] then ""
    else if |parts| == 1 then parts[0]
    else parts[0] + sep + Join(parts[1..], sep)
  }

  lemma {:induction false} SplitFree(s: string, c: char)
    requires c !in s
    ensures Split(s, c) == [s]
  {
    if s != "" {
      SplitFree(s[1..], c);
      assert s == [s[0]] + s[1..];
    }
  }

  lemma {:induction false} SplitCons(head: string, c: char, rest: string)
    requires c !in head
    ensures Split(head + [c] + rest, c) == [head] + Split(rest, c)
  {
    var s := head + [c] + rest;
    if head == "" {
      assert s[1..] == rest;
    } else {
      assert s[1..] == head[1..] + [c] + rest;
      SplitCons(head[1..], c, rest);
      assert s[0] == head[0];
      assert [head[0]] + head[1..] == head;
    }
  }

  lemma {:induction false} SplitHead(x: char, s: string, c: char)
    ensures Split([x] + s, c) ==
            if x == c then [""] + Split(s, c) else [[x] + Split(s, c)[0]] + Split(s, c)[1..]
  {
    assert ([x] + s)[1..] == s;
  }

  lemma Regroup<T>(a: seq<T>, b: seq<T>, c: seq<T>)
    ensures a + (b + c) == a + b + c && a + [] == a && [] + a == a
  {
  }

  lemma PrefixAndRest<T>(p: seq<T>, s: seq<T>)
    requires p <= s
    ensures s == p + s[|p|..]
  {
  }

  lemma TailOfSum<T>(a: seq<T>, b: seq<T>)
    requires |a| >= 1
    ensures (a + b)[1..] == a[1..] + b && (a + b)[0] == a[0]
  {
  }

  lemma {:induction false} SplitAppend(a: string, c: char, b: string)
    ensures Split(a + [c] + b, c) == Split(a, c) + Split(b, c)
  {
    hide Split;
    if a == "" {
      assert a + [c] + b == [c] + b;
      SplitHead(c, b, c);
      SplitFree(a, c);
    } else {
      var t := a[1..];
      assert a + [c] + b == [a[0]] + (t + [c] + b) && a == [a[0]] + t;
      SplitAppend(t, c, b);
      SplitHead(a[0], t + [c] + b, c);
      SplitHead(a[0], t, c);
      TailOfSum(Split(t, c), Split(b, c));
    }
  }

  /** The parts hold no separator, and putting them together with it gives the text back. */
  lemma {:induction false} SplitJoins(s: string, c: char)
    ensures Join(Split(s, c), [c]) == s
    ensures forall i :: 0 <= i < |Split(s, c)| ==> c !in Split(s, c)[i]
  {
    if s != "" {
      var rest := Split(s[1..], c);
      SplitJoins(s[1..], c);
      assert s == [s[0]] + s[1..];
      if s[0] == c {
        assert ([""] + rest)[1..] == rest;
      } else {
        var parts := [[s[0]] + rest[0]] + rest[1..];
        assert parts[1..] == rest[1..];
        if |rest| == 1 { assert Join(parts, [c]) == [s[0]] + rest[0]; }
      }
    }
  }

  lemma {:induction false} SplitSeparates(s: string, c: char)
    requires c in s
    ensures |Split(s, c)| >= 2
  {
    if s[0] != c { SplitSeparates(s[1..], c); }
  }
}
