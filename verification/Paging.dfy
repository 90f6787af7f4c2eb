/**
  Two ways of reading a log page by page: the event replay continues after a (time, id) pair, the email list after
  a time only. On a fixed log the first misses nothing; the second misses exactly the ties it cuts through.
 */
module Paging {
  import opened Text

  datatype Row = Row(created: int, id: nat)

  // ----- Replay: ascending, keyed by (created, id) -----

  const REPLAY_PAGE := 500

  predicate Before(a: Row, b: Row) { a.created < b.created || (a.created == b.created && a.id < b.id) }

  ghost predicate Ascending(log: seq<Row>) {
    forall i, j :: 0 <= i < j < |log| ==>
      (log[i].created < log[j].created || (log[i].created == log[j].created && log[i].id < log[j].id)) && log[i].id != log[j].id
  }

  function Newer(log: seq<Row>, horizon: int, cursor: Row): seq<Row> {
    if log == [] then []
    else (if log[0].created > horizon && Before(cursor, log[0]) then [log[0]] else []) + Newer(log[1..], horizon, cursor)
  }

  function Take(rows: seq<Row>, n: nat): seq<Row> { if |rows| <= n then rows else rows[..n] }

  function Find(log: seq<Row>, id: nat): Option<Row> {
    if log == [] then None else if log[0].id == id then Some(log[0]) else Find(log[1..], id)
  }

  function ReplaySince(log: seq<Row>, horizon: int, lastId: nat): seq<Row> {
    match Find(log, lastId) case None => [] case Some(cursor) => Take(Newer(log, horizon, cursor), REPLAY_PAGE)
  }

  lemma {:induction false} FindAt(log: seq<Row>, i: nat)
    requires Ascending(log) && i < |log|
    ensures Find(log, log[i].id) == Some(log[i])
  {
    if i > 0 { FindAt(log[1..], i - 1); }
  }

  lemma {:induction false} NewerAll(log: seq<Row>, horizon: int, cursor: Row)
    requires forall i :: 0 <= i < |log| ==> log[i].created > horizon && Before(cursor, log[i])
    ensures Newer(log, horizon, cursor) == log
  {
    if log != [] { NewerAll(log[1..], horizon, cursor); }
  }

  /** In an ascending log the rows after a cursor, and within the horizon, are a tail. */
  lemma {:induction false} NewerIsTail(log: seq<Row>, horizon: int, cursor: Row) returns (k: nat)
    requires Ascending(log)
    ensures k <= |log| && Newer(log, horizon, cursor) == log[k..]
    ensures forall i :: 0 <= i < |log| ==> (k <= i <==> log[i].created > horizon && Before(cursor, log[i]))
  {
    if log == [] {
      k := 0;
    } else if log[0].created > horizon && Before(cursor, log[0]) {
      k := 0;
      NewerAll(log, horizon, cursor);
    } else {
      var rest := NewerIsTail(log[1..], horizon, cursor);
      k := rest + 1;
      assert forall i :: 0 < i < |log| ==> log[i] == log[1..][i - 1];
    }
  }

  lemma {:induction false} NewerFrom(log: seq<Row>, horizon: int, i: nat)
    requires Ascending(log) && i < |log| && log[i].created > horizon
    ensures Newer(log, horizon, log[i]) == log[i + 1..]
  {
    hide Newer;
    var m := NewerIsTail(log, horizon, log[i]);
    assert !Before(log[i], log[i]);
    if i + 1 < |log| { assert Before(log[i], log[i + 1]) && log[i + 1].created > horizon; }
  }

  /** From one of the rows still to come, what is still to come after it is the rest. */
  lemma {:induction false} NewerContinues(log: seq<Row>, horizon: int, cursor: Row, n: nat)
    requires Ascending(log) && n < |Newer(log, horizon, cursor)|
    ensures var all := Newer(log, horizon, cursor);
            Find(log, all[n].id) == Some(all[n]) && Newer(log, horizon, all[n]) == all[n + 1..]
  {
    hide Newer, Find;
    var k := NewerIsTail(log, horizon, cursor);
    FindAt(log, k + n);
    NewerFrom(log, horizon, k + n);
    assert log[k..][n + 1..] == log[k + n + 1..];
  }

  lemma {:induction false} ReplayContinues(log: seq<Row>, horizon: int, cursor: Row, n: nat)
    requires Ascending(log) && n < |Newer(log, horizon, cursor)|
    ensures var all := Newer(log, horizon, cursor);
            ReplaySince(log, horizon, all[n].id) == Take(all[n + 1..], REPLAY_PAGE)
  {
    NewerContinues(log, horizon, cursor, n);
  }

  lemma PageExtends(all: seq<Row>, k: nat, page: seq<Row>)
    requires k <= |all| && page == Take(all[k..], REPLAY_PAGE) && page != []
    ensures k + |page| <= |all| && all[..k] + page == all[..k + |page|] && page[|page| - 1] == all[k + |page| - 1]
  {
  }

  /** Everything after position c of the log that is within the horizon: a tail, as time only grows. */
  ghost predicate IsRestAfter(log: seq<Row>, horizon: int, c: nat, rows: seq<Row>) {
    |rows| <= |log| - c - 1 && rows == log[|log| - |rows|..]
    && forall i :: c < i < |log| ==> (|log| - |rows| <= i <==> log[i].created > horizon)
  }

  lemma {:induction false} RestIsAfter(log: seq<Row>, horizon: int, c: nat)
    requires Ascending(log) && c < |log|
    ensures Find(log, log[c].id) == Some(log[c])
    ensures IsRestAfter(log, horizon, c, Newer(log, horizon, log[c]))
  {
    hide Newer, Find;
    FindAt(log, c);
    var k := NewerIsTail(log, horizon, log[c]);
    assert c < k;
  }

  lemma {:induction false} FindNothing(log: seq<Row>, id: nat)
    requires forall c :: 0 <= c < |log| ==> log[c].id != id
    ensures Find(log, id) == None
  {
    if log != [] {
      assert forall c :: 0 <= c < |log| - 1 ==> log[1..][c] == log[c + 1];
      FindNothing(log[1..], id);
    }
  }

  /** Nothing for an unknown id; for a known one all that comes after its row. */
  ghost predicate IsReplay(log: seq<Row>, horizon: int, lastId: nat, rows: seq<Row>) {
    && ((forall c :: 0 <= c < |log| ==> log[c].id != lastId) ==> rows == [])
    && (forall c :: 0 <= c < |log| && log[c].id == lastId ==> IsRestAfter(log, horizon, c, rows))
  }

  lemma ReplayMeans(log: seq<Row>, horizon: int, lastId: nat)
    requires Ascending(log)
    ensures IsReplay(log, horizon, lastId, match Find(log, lastId) case None => [] case Some(cursor) => Newer(log, horizon, cursor))
  {
    hide Newer, Find, IsRestAfter;
    if forall c :: 0 <= c < |log| ==> log[c].id != lastId { FindNothing(log, lastId); }
    forall c | 0 <= c < |log| && log[c].id == lastId
      ensures Find(log, lastId) == Some(log[c]) && IsRestAfter(log, horizon, c, Newer(log, horizon, log[c]))
    {
      RestIsAfter(log, horizon, c);
    }
  }

  /** Reconnecting with the last id seen, until nothing comes, reads exactly the later rows, in order, ties included. */
  method ReplayAll(log: seq<Row>, horizon: int, lastId: nat) returns (out: seq<Row>)
    requires Ascending(log)
    ensures out == match Find(log, lastId) case None => [] case Some(cursor) => Newer(log, horizon, cursor)
    ensures IsReplay(log, horizon, lastId, out)
  {
    hide Ascending, Find, Newer, IsReplay;
    out := [];
    ghost var all := match Find(log, lastId) case None => [] case Some(cursor) => Newer(log, horizon, cursor);
    var last := lastId;
    var page := ReplaySince(log, horizon, last);
    assert all[|out|..] == all;
    assert IsReplay(log, horizon, lastId, all) by { ReplayMeans(log, horizon, lastId); }
    hide *;
    while page != []
      invariant |out| <= |all| && out == all[..|out|]
      invariant page == Take(all[|out|..], REPLAY_PAGE)
      decreases |all| - |out|
    {
      ghost var n := |out| + |page|;
      PageExtends(all, |out|, page);
      out := out + page;
      last := page[|page| - 1].id;
      ReplayContinues(log, horizon, Find(log, lastId).value, n - 1);
      page := ReplaySince(log, horizon, last);
    }
  }

  // ----- List: descending, keyed by created alone -----

  function PageSize(limit: int): nat { if limit <= 0 || limit > 100 then 20 else limit }

  ghost predicate Descending(rows: seq<Row>) {
    forall i, j :: 0 <= i < j < |rows| ==> rows[i].created >= rows[j].created
  }

  function Older(rows: seq<Row>, cursor: Option<int>): seq<Row> {
    if rows == [] then []
    else (if cursor.None? || rows[0].created < cursor.value then [rows[0]] else []) + Older(rows[1..], cursor)
  }

  /** One page, and the cursor for the next when there is more. */
  function ListPage(rows: seq<Row>, limit: int, cursor: Option<int>): (seq<Row>, Option<int>) {
    var n := PageSize(limit);
    var fetched := Take(Older(rows, cursor), n + 1);
    if |fetched| > n then (fetched[..n], Some(fetched[n - 1].created)) else (fetched, None)
  }

  /** The first position from `i` on with a time before t. */
  function SkipTies(rows: seq<Row>, i: nat, t: int): (k: nat)
    requires i <= |rows|
    ensures i <= k <= |rows|
    ensures forall j :: i <= j < k ==> rows[j].created >= t
    ensures k < |rows| ==> rows[k].created < t
    decreases |rows| - i
  {
    if i < |rows| && rows[i].created >= t then SkipTies(rows, i + 1, t) else i
  }

  lemma {:induction false} OlderIsTail(rows: seq<Row>, t: int)
    requires Descending(rows)
    ensures Older(rows, Some(t)) == rows[SkipTies(rows, 0, t)..]
  {
    if rows != [] {
      OlderIsTail(rows[1..], t);
      var k := SkipTies(rows, 0, t);
      var m := SkipTies(rows[1..], 0, t);
      if rows[0].created < t {
        assert m == 0 by { assert |rows| > 1 ==> rows[1..][0].created <= rows[0].created; }
        assert rows == [rows[0]] + rows[1..];
      } else {
        assert k == m + 1 by {
          assert k > 0;
          assert k < |rows| ==> rows[1..][k - 1] == rows[k];
          assert m < |rows| - 1 ==> rows[1..][m] == rows[m + 1];
        }
      }
    }
  }

  lemma {:induction false} OlderThanNone(rows: seq<Row>)
    ensures Older(rows, None) == rows
  {
    if rows != [] { OlderThanNone(rows[1..]); }
  }

  /** Where the page after the one at p starts: past every row tied with its last. */
  function NextPage(rows: seq<Row>, p: nat, n: nat): (q: nat)
    requires n > 0 && p + n <= |rows|
    ensures p + n <= q <= |rows|
  {
    SkipTies(rows, p + n, rows[p + n - 1].created)
  }

  /** Positions of the last row of each page that has a successor, paging from position p. */
  function PageEnds(rows: seq<Row>, p: nat, n: nat): seq<nat>
    requires p <= |rows| && n > 0
    decreases |rows| - p
  {
    if |rows| - p <= n then []
    else [p + n - 1] + PageEnds(rows, NextPage(rows, p, n), n)
  }

  /** A row the chain of pages never shows: after a page's last row and tied with it. */
  ghost predicate CutOff(rows: seq<Row>, ends: seq<nat>, i: nat)
    requires i < |rows|
  {
    exists e :: e in ends && e < i && e < |rows| && rows[e].created == rows[i].created
  }

  ghost predicate Increasing(kept: seq<nat>, lo: nat, hi: nat) {
    && (forall k :: 0 <= k < |kept| ==> lo <= kept[k] < hi)
    && (forall k, l :: 0 <= k < l < |kept| ==> kept[k] < kept[l])
  }

  ghost predicate Shows(rows: seq<Row>, ends: seq<nat>, p: nat, kept: seq<nat>) {
    && Increasing(kept, p, |rows|)
    && (forall i :: p <= i < |rows| ==> (i in kept <==> !CutOff(rows, ends, i)))
  }

  function Positions(p: nat, q: nat): seq<nat>
    requires p <= q
  {
    seq(q - p, i requires 0 <= i < q - p => p + i)
  }

  function Kept(rows: seq<Row>, p: nat, n: nat): seq<nat>
    requires p <= |rows| && n > 0
    decreases |rows| - p
  {
    if |rows| - p <= n then Positions(p, |rows|)
    else Positions(p, p + n) + Kept(rows, NextPage(rows, p, n), n)
  }

  predicate InRange(rows: seq<Row>, kept: seq<nat>) { forall k :: 0 <= k < |kept| ==> kept[k] < |rows| }

  function Pick(rows: seq<Row>, kept: seq<nat>): seq<Row>
    requires InRange(rows, kept)
  {
    seq(|kept|, k requires 0 <= k < |kept| => rows[kept[k]])
  }

  lemma {:induction false} EndsAreLater(rows: seq<Row>, p: nat, n: nat)
    requires p <= |rows| && n > 0
    ensures forall e :: e in PageEnds(rows, p, n) ==> p <= e < |rows| - 1
    decreases |rows| - p
  {
    if |rows| - p > n { EndsAreLater(rows, NextPage(rows, p, n), n); }
  }

  lemma InPositions(p: nat, q: nat)
    requires p <= q
    ensures forall i :: i in Positions(p, q) <==> p <= i < q
  {
    forall i | p <= i < q ensures i in Positions(p, q) {
      assert Positions(p, q)[i - p] == i;
    }
  }

  lemma JoinIncreasing(p: nat, mid: nat, rest: seq<nat>, q: nat, hi: nat)
    requires p <= mid <= q <= hi && Increasing(rest, q, hi)
    ensures Increasing(Positions(p, mid) + rest, p, hi)
  {
    var head := Positions(p, mid);
    var kept := head + rest;
    forall k | 0 <= k < |kept| ensures kept[k] == if k < |head| then p + k else rest[k - |head|] {}
  }

  lemma {:induction false} KeptIncreases(rows: seq<Row>, p: nat, n: nat)
    requires p <= |rows| && n > 0
    ensures Increasing(Kept(rows, p, n), p, |rows|)
    decreases |rows| - p
  {
    if |rows| - p > n {
      var q := NextPage(rows, p, n);
      KeptIncreases(rows, q, n);
      JoinIncreasing(p, p + n, Kept(rows, q, n), q, |rows|);
    }
  }

  /** What a further page leaves out: the ties it ends in, besides what the pages after it leave out. */
  lemma CutOffByPage(rows: seq<Row>, e: nat, q: nat, later: seq<nat>, i: nat)
    requires Descending(rows) && e < q <= |rows| && i < |rows|
    requires forall j :: e <= j < q ==> rows[j].created == rows[e].created
    requires q < |rows| ==> rows[q].created < rows[e].created
    requires forall l :: l in later ==> q <= l
    ensures CutOff(rows, [e] + later, i) <==> if i < q then e < i else CutOff(rows, later, i)
  {
    assert e in [e] + later;
    if i >= q {
      assert rows[i].created <= rows[q].created < rows[e].created;
      forall l | l in later ensures l in [e] + later {}
    }
  }

  /** The pages show each row at most once and omit exactly the rows tied with, and after, a page's last row. */
  lemma {:induction false} PagesShow(rows: seq<Row>, p: nat, n: nat)
    requires Descending(rows) && p <= |rows| && n > 0
    ensures Shows(rows, PageEnds(rows, p, n), p, Kept(rows, p, n))
    decreases |rows| - p
  {
    KeptIncreases(rows, p, n);
    if |rows| - p <= n {
      InPositions(p, |rows|);
    } else {
      var e := p + n - 1;
      var q := NextPage(rows, p, n);
      PagesShow(rows, q, n);
      EndsAreLater(rows, q, n);
      InPositions(p, p + n);
      forall i | p <= i < |rows| ensures i in Kept(rows, p, n) <==> !CutOff(rows, PageEnds(rows, p, n), i) {
        CutOffByPage(rows, e, q, PageEnds(rows, q, n), i);
        KeptFrom(rows, p, n, i);
      }
    }
  }

  lemma {:induction false} KeptFrom(rows: seq<Row>, p: nat, n: nat, i: nat)
    requires p <= |rows| && n > 0 && |rows| - p > n
    ensures var q := NextPage(rows, p, n);
            i in Kept(rows, p, n) <==> p <= i < p + n || (i >= q && i in Kept(rows, q, n))
  {
    InPositions(p, p + n);
    var q := NextPage(rows, p, n);
    KeptIncreases(rows, q, n);
    assert Kept(rows, p, n) == Positions(p, p + n) + Kept(rows, q, n);
    assert i in Kept(rows, p, n) <==> i in Positions(p, p + n) || i in Kept(rows, q, n);
  }

  function PageStop(rows: seq<Row>, p: nat, n: nat): nat { if |rows| > p + n then p + n else |rows| }

  lemma {:induction false} PageAt(rows: seq<Row>, limit: int, cursor: Option<int>, p: nat)
    requires p <= |rows| && Older(rows, cursor) == rows[p..]
    ensures var n := PageSize(limit);
            && InRange(rows, Positions(p, PageStop(rows, p, n)))
            && ListPage(rows, limit, cursor).0 == Pick(rows, Positions(p, PageStop(rows, p, n)))
            && ListPage(rows, limit, cursor).1 == CursorAt(rows, p, n)
  {
    var n := PageSize(limit);
    assert rows[p..PageStop(rows, p, n)] == Pick(rows, Positions(p, PageStop(rows, p, n)));
    if |rows| - p > n {
      assert rows[p..][..n + 1][..n] == rows[p..p + n];
      assert rows[p..][..n + 1][n - 1] == rows[p + n - 1];
    } else {
      assert rows[p..] == rows[p..|rows|];
    }
  }

  /** A page is the first so many rows older than the cursor, and names the last one's time when there are more. */
  lemma ListPageIs(rows: seq<Row>, limit: int, cursor: Option<int>) returns (k: nat)
    requires Descending(rows)
    ensures k <= |rows| && forall i :: 0 <= i < |rows| ==> (k <= i <==> cursor.None? || rows[i].created < cursor.value)
    ensures var n := if 1 <= limit <= 100 then limit else 20;
            ListPage(rows, limit, cursor) ==
            if |rows| - k > n then (rows[k..k + n], Some(rows[k + n - 1].created)) else (rows[k..], None)
  {
    if cursor.None? {
      k := 0;
      OlderThanNone(rows);
    } else {
      k := SkipTies(rows, 0, cursor.value);
      OlderIsTail(rows, cursor.value);
    }
    hide Older;
    PageOfTail(rows, k, PageSize(limit));
  }

  lemma PageOfTail(rows: seq<Row>, k: nat, n: nat)
    requires k <= |rows| && n > 0
    ensures |rows| - k > n ==> Take(rows[k..], n + 1)[..n] == rows[k..k + n] && |Take(rows[k..], n + 1)| > n
    ensures |rows| - k <= n ==> Take(rows[k..], n + 1) == rows[k..]
  {
  }

  lemma PickAppend(rows: seq<Row>, a: seq<nat>, b: seq<nat>)
    requires InRange(rows, a) && InRange(rows, b)
    ensures InRange(rows, a + b)
    ensures Pick(rows, a + b) == Pick(rows, a) + Pick(rows, b)
  {
  }

  /** The positions shown by the pages after the one at p. */
  function Rest(rows: seq<Row>, p: nat, n: nat): seq<nat>
    requires p <= |rows| && n > 0
  {
    if |rows| - p > n then Kept(rows, NextPage(rows, p, n), n) else []
  }

  lemma {:induction false} KeptIsPageAndRest(rows: seq<Row>, p: nat, n: nat, shown: seq<nat>)
    requires p <= |rows| && n > 0
    ensures shown + Kept(rows, p, n) == shown + Positions(p, PageStop(rows, p, n)) + Rest(rows, p, n)
  {
    assert Kept(rows, p, n) == Positions(p, PageStop(rows, p, n)) + Rest(rows, p, n);
  }

  function CursorAt(rows: seq<Row>, p: nat, n: nat): Option<int>
    requires p <= |rows| && n > 0
  {
    if |rows| - p > n then Some(rows[p + n - 1].created) else None
  }

  /** Following the cursors to the end shows the rows at the kept positions. */
  method ListAll(rows: seq<Row>, limit: int) returns (out: seq<Row>)
    requires Descending(rows)
    ensures var n := if 1 <= limit <= 100 then limit else 20;
            && InRange(rows, Kept(rows, 0, n)) && out == Pick(rows, Kept(rows, 0, n))
            && (out == rows <==> Untied(rows, n))
  {
    hide InRange, PageSize;
    hide Kept, Older, ListPage, SkipTies, NextPage, Positions, Pick, Untied;
    ghost var n := PageSize(limit);
    PageSizeIs(limit);
    OlderThanNone(rows);
    PageAt(rows, limit, None, 0);
    KeptIsPageAndRest(rows, 0, n, []);
    ghost var p: nat := 0;
    ghost var shown: seq<nat> := Positions(0, PageStop(rows, 0, n));
    assert [] + shown == shown && [] + Kept(rows, 0, n) == Kept(rows, 0, n);
    var (page, next) := ListPage(rows, limit, None);
    out := page;
    while next.Some?
      invariant p <= |rows|
      invariant InRange(rows, shown) && out == Pick(rows, shown)
      invariant next == CursorAt(rows, p, n)
      invariant Kept(rows, 0, n) == shown + Rest(rows, p, n)
      decreases |rows| - p
    {
      ghost var q := NextPage(rows, p, n);
      TailAfterPage(rows, p, n);
      PageAt(rows, limit, next, q);
      PickAppend(rows, shown, Positions(q, PageStop(rows, q, n)));
      KeptIsPageAndRest(rows, q, n, shown);
      p, shown := q, shown + Positions(q, PageStop(rows, q, n));
      var r := ListPage(rows, limit, next);
      page, next := r.0, r.1;
      out := out + page;
    }
    EndOfList(rows, p, n, next, shown);
    ListCompleteIff(rows, n);
  }

  lemma EndOfList(rows: seq<Row>, p: nat, n: nat, next: Option<int>, shown: seq<nat>)
    requires p <= |rows| && n > 0 && next == CursorAt(rows, p, n) && next.None?
    ensures shown + Rest(rows, p, n) == shown
  {
  }

  lemma PageSizeIs(limit: int)
    ensures PageSize(limit) == if 1 <= limit <= 100 then limit else 20
  {
  }

  lemma {:induction false} TailAfterPage(rows: seq<Row>, p: nat, n: nat)
    requires Descending(rows) && n > 0 && |rows| - p > n
    ensures Older(rows, Some(rows[p + n - 1].created)) == rows[NextPage(rows, p, n)..]
  {
    OlderIsTail(rows, rows[p + n - 1].created);
    SkipFromStart(rows, p + n, rows[p + n - 1].created);
  }

  lemma {:induction false} SkipFromStart(rows: seq<Row>, i: nat, t: int)
    requires Descending(rows) && 0 < i <= |rows| && t == rows[i - 1].created
    ensures SkipTies(rows, 0, t) == SkipTies(rows, i, t)
  {
    var a, b := SkipTies(rows, 0, t), SkipTies(rows, i, t);
    assert a >= i;
  }

  /** A full list of distinct increasing positions is the identity. */
  lemma {:induction false} IncreasingBounds(kept: seq<nat>, n: nat, k: nat)
    requires k < |kept| && Increasing(kept, 0, n)
    ensures kept[k] <= n - |kept| + k
    decreases |kept| - k
  {
    if k + 1 < |kept| { IncreasingBounds(kept, n, k + 1); }
  }

  lemma {:induction false} IncreasingFromBelow(kept: seq<nat>, k: nat)
    requires k < |kept| && forall i, j :: 0 <= i < j < |kept| ==> kept[i] < kept[j]
    ensures k <= kept[k]
  {
    if k > 0 { IncreasingFromBelow(kept, k - 1); }
  }

  lemma NextPageIs(rows: seq<Row>, p: nat, n: nat)
    requires n > 0 && p + n <= |rows|
    requires p + n < |rows| ==> rows[p + n].created < rows[p + n - 1].created
    ensures NextPage(rows, p, n) == p + n
  {
  }

  ghost predicate NoTie(rows: seq<Row>, ends: seq<nat>) {
    forall e :: e in ends ==> e + 1 < |rows| && rows[e].created != rows[e + 1].created
  }

  lemma NoTieRest(rows: seq<Row>, e: nat, later: seq<nat>)
    requires Descending(rows) && NoTie(rows, [e] + later)
    ensures NoTie(rows, later) && e + 1 < |rows| && rows[e + 1].created < rows[e].created
  {
    assert e in [e] + later;
    forall l | l in later ensures l in [e] + later {}
  }

  lemma {:induction false} UnfoldPage(rows: seq<Row>, p: nat, n: nat)
    requires n > 0 && p + n < |rows|
    ensures var q := NextPage(rows, p, n);
            && PageEnds(rows, p, n) == [p + n - 1] + PageEnds(rows, q, n)
            && Kept(rows, p, n) == Positions(p, p + n) + Kept(rows, q, n)
  {
  }

  lemma JoinPositions(p: nat, q: nat, r: nat)
    requires p <= q <= r
    ensures Positions(p, q) + Positions(q, r) == Positions(p, r)
  {
  }

  lemma NoTieStep(rows: seq<Row>, p: nat, n: nat)
    requires Descending(rows) && n > 0 && p + n < |rows| && NoTie(rows, PageEnds(rows, p, n))
    ensures NextPage(rows, p, n) == p + n && NoTie(rows, PageEnds(rows, p + n, n))
  {
    UnfoldPage(rows, p, n);
    NoTieRest(rows, p + n - 1, PageEnds(rows, NextPage(rows, p, n), n));
    hide NoTie, PageEnds;
    NextPageIs(rows, p, n);
  }

  lemma KeptJoins(rows: seq<Row>, p: nat, n: nat)
    requires n > 0 && p + n < |rows| && NextPage(rows, p, n) == p + n && Kept(rows, p + n, n) == Positions(p + n, |rows|)
    ensures Kept(rows, p, n) == Positions(p, |rows|)
  {
    UnfoldPage(rows, p, n);
    JoinPositions(p, p + n, |rows|);
    hide *;
  }

  lemma {:induction false} NoTieKeepsAll(rows: seq<Row>, p: nat, n: nat)
    requires Descending(rows) && p <= |rows| && n > 0 && NoTie(rows, PageEnds(rows, p, n))
    ensures Kept(rows, p, n) == Positions(p, |rows|)
    decreases |rows| - p
  {
    if |rows| - p > n {
      NoTieStep(rows, p, n);
      NoTieKeepsAll(rows, p + n, n);
      KeptJoins(rows, p, n);
    }
  }

  lemma {:induction false} TieLosesRow(rows: seq<Row>, n: nat, e: nat)
    requires Descending(rows) && n > 0
    requires e in PageEnds(rows, 0, n) && e + 1 < |rows| && rows[e].created == rows[e + 1].created
    ensures |Kept(rows, 0, n)| != |rows|
  {
    var kept := Kept(rows, 0, n);
    PagesShow(rows, 0, n);
    assert CutOff(rows, PageEnds(rows, 0, n), e + 1);
    if |kept| == |rows| {
      IncreasingBounds(kept, |rows|, e + 1);
      IncreasingFromBelow(kept, e + 1);
    }
  }

  predicate OnCut(p: nat, i: nat, n: nat)
    requires n > 0 && p <= i
  {
    (i - p) % n == 0
  }

  /** No two rows at a multiple of the page size from p, and just before it, are tied. */
  ghost predicate CleanCuts(rows: seq<Row>, p: nat, n: nat)
    requires n > 0
  {
    forall i :: p < i < |rows| && OnCut(p, i, n) ==> rows[i - 1].created != rows[i].created
  }

  lemma CutFrom(p: nat, i: nat, n: nat)
    requires n > 0 && p < i
    ensures i < p + n ==> !OnCut(p, i, n)
    ensures i == p + n ==> OnCut(p, i, n)
    ensures i > p + n ==> (OnCut(p, i, n) <==> OnCut(p + n, i, n))
  {
    if i >= p + n { ModStep(i - p, n); }
  }

  lemma ModStep(x: nat, n: nat)
    requires n > 0 && x >= n
    ensures x % n == (x - n) % n && n % n == 0
  {
    var q, r := (x - n) / n, (x - n) % n;
    assert x - n == q * n + r;
    assert x == (q + 1) * n + r;
    ModIs(x, q + 1, r, n);
  }

  lemma ModIs(x: nat, q: nat, r: nat, n: nat)
    requires n > 0 && r < n && x == q * n + r
    ensures x % n == r
  {
    var d := x / n - q;
    assert x == (x / n) * n + x % n;
    assert d * n == r - x % n;
    NonZeroMultiple(d, n);
  }

  lemma NonZeroMultiple(d: int, n: nat)
    ensures d >= 1 ==> d * n >= n
    ensures d <= -1 ==> d * n + n <= 0
  {
  }

  lemma CleanCutsFrom(rows: seq<Row>, p: nat, n: nat)
    requires n > 0 && p + n < |rows|
    ensures CleanCuts(rows, p, n) <==> rows[p + n - 1].created != rows[p + n].created && CleanCuts(rows, p + n, n)
  {
    hide OnCut;
    CutFrom(p, p + n, n);
    forall i: nat | p < i < |rows| ensures i < p + n ==> !OnCut(p, i, n)
                                   ensures i > p + n ==> (OnCut(p, i, n) <==> OnCut(p + n, i, n)) {
      CutFrom(p, i, n);
    }
  }

  lemma {:induction false} NoTieUnfold(rows: seq<Row>, p: nat, n: nat)
    requires n > 0 && p + n < |rows|
    ensures NoTie(rows, PageEnds(rows, p, n))
        <==> rows[p + n - 1].created != rows[p + n].created && NoTie(rows, PageEnds(rows, NextPage(rows, p, n), n))
  {
    var e, later := p + n - 1, PageEnds(rows, NextPage(rows, p, n), n);
    UnfoldPage(rows, p, n);
    assert e in [e] + later;
    forall l | l in later ensures l in [e] + later {}
  }

  /** As long as no page ends inside a tie, the pages end at the multiples of their size. */
  lemma {:induction false} NoTieIsCleanCuts(rows: seq<Row>, p: nat, n: nat)
    requires Descending(rows) && p <= |rows| && n > 0
    ensures NoTie(rows, PageEnds(rows, p, n)) <==> CleanCuts(rows, p, n)
    decreases |rows| - p
  {
    if |rows| - p <= n {
      forall i: nat | p < i < |rows| ensures !OnCut(p, i, n) {
        CutFrom(p, i, n);
      }
    } else {
      hide CleanCuts, NoTie;
      CleanCutsFrom(rows, p, n);
      NoTieUnfold(rows, p, n);
      if rows[p + n - 1].created != rows[p + n].created {
        NextPageIs(rows, p, n);
        NoTieIsCleanCuts(rows, p + n, n);
      }
    }
  }

  /** No two rows at a multiple of n, and just before it, have the same time. */
  ghost predicate Untied(rows: seq<Row>, n: nat)
    requires n > 0
  {
    forall i :: 0 < i < |rows| && i % n == 0 ==> rows[i - 1].created != rows[i].created
  }

  /** The listing is complete exactly when no two rows are tied across a multiple of the page size. */
  lemma {:induction false} ListCompleteIff(rows: seq<Row>, n: nat)
    requires Descending(rows) && n > 0
    ensures InRange(rows, Kept(rows, 0, n))
    ensures Pick(rows, Kept(rows, 0, n)) == rows
        <==> Untied(rows, n)
  {
    KeptIncreases(rows, 0, n);
    CompleteWithoutTies(rows, n);
    NoTieIsCleanCuts(rows, 0, n);
    hide NoTie, Kept, Pick, PageEnds;
  }

  lemma {:induction false} CompleteWithoutTies(rows: seq<Row>, n: nat)
    requires Descending(rows) && n > 0
    ensures InRange(rows, Kept(rows, 0, n))
    ensures Pick(rows, Kept(rows, 0, n)) == rows <==> NoTie(rows, PageEnds(rows, 0, n))
  {
    KeptIncreases(rows, 0, n);
    EndsAreLater(rows, 0, n);
    var ends := PageEnds(rows, 0, n);
    if NoTie(rows, ends) {
      NoTieKeepsAll(rows, 0, n);
      PickAll(rows);
    } else {
      var e :| e in ends && rows[e].created == rows[e + 1].created;
      TieLosesRow(rows, n, e);
    }
    hide *;
  }

  lemma PickAll(rows: seq<Row>)
    ensures InRange(rows, Positions(0, |rows|)) && Pick(rows, Positions(0, |rows|)) == rows
  {
  }
}
