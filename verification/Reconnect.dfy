/**
  A subscriber whose connection breaks, at any character and any number of times, and who reconnects with the id of
  the last event read. Each time the server writes one replay page and then what is published after it subscribed.
  Rows are named by their position in the log, which is the order in which they are inserted and published.
 */
module Reconnect {
  import opened Text
  import opened Paging
  import Sse

  // ----- One connection, as the server sees it -----

  /**
    What a subscriber asks for, and the two frames of a row: replayed from what the table stores of it, and as it was
    published. The two can differ: a report of the mail provider is stored whole but published as a summary.
   */
  datatype View = View(types: set<string>, aboutEmail: string -> bool, stored: Row -> Sse.Item, event: Row -> Sse.Item)

  datatype Form = Stored | Published

  function Frame(v: View, f: Form, row: Row): Sse.Item { if f.Stored? then v.stored(row) else v.event(row) }

  predicate Passes(v: View, f: Form, row: Row) { Sse.Wanted(Frame(v, f, row), v.types, v.aboutEmail) }

  /** A subscriber asks for the rows that would reach it live. */
  predicate Asked(v: View, row: Row) { Passes(v, Published, row) }

  datatype Tick = Beat | Live

  /**
    The table held the first `logged` rows when the replay was read, and the first `published` had been published when
    the subscription began; then came heartbeats and further rows, until the connection broke at character `cut`.
    With published > logged, rows in between reach neither; with published < logged, some may reach both.
   */
  datatype Connection = Connection(logged: nat, horizon: int, published: nat, ticks: seq<Tick>, cut: nat)

  function Lives(ticks: seq<Tick>): nat {
    if ticks == [] then 0 else (if ticks[0].Live? then 1 else 0) + Lives(ticks[1..])
  }

  function Until(c: Connection): nat { c.published + Lives(c.ticks) }

  function RowItems(rows: seq<Row>, v: View): seq<Sse.Item> {
    if rows == [] then [] else RowItems(rows[..|rows| - 1], v) + [v.stored(rows[|rows| - 1])]
  }

  function TickItems(log: seq<Row>, p: nat, ticks: seq<Tick>, v: View): seq<Sse.Item>
    requires p + Lives(ticks) <= |log|
    decreases |ticks|
  {
    if ticks == [] then []
    else if ticks[0].Live? then [v.event(log[p])] + TickItems(log, p + 1, ticks[1..], v)
    else [Sse.Ping] + TickItems(log, p, ticks[1..], v)
  }

  lemma {:induction false} RowItemsAre(rows: seq<Row>, v: View)
    ensures |RowItems(rows, v)| == |rows| && forall i :: 0 <= i < |rows| ==> RowItems(rows, v)[i] == v.stored(rows[i])
  {
    if rows != [] { RowItemsAre(rows[..|rows| - 1], v); }
  }

  /** A heartbeat is a ping, and the k-th row that comes live is the k-th published after the subscription. */
  lemma {:induction false} TickItemsAre(log: seq<Row>, p: nat, ticks: seq<Tick>, v: View, i: nat)
    requires p + Lives(ticks) <= |log| && i < |ticks|
    ensures |TickItems(log, p, ticks, v)| == |ticks| && Lives(ticks[..i]) + (if ticks[i].Live? then 1 else 0) <= Lives(ticks)
    ensures TickItems(log, p, ticks, v)[i] == if ticks[i].Beat? then Sse.Ping else v.event(log[p + Lives(ticks[..i])])
    decreases |ticks|
  {
    var q := if ticks[0].Live? then p + 1 else p;
    if i == 0 {
      if |ticks| > 1 { TickItemsAre(log, q, ticks[1..], v, 0); }
    } else {
      TickItemsAre(log, q, ticks[1..], v, i - 1);
      assert ticks[..i][1..] == ticks[1..][..i - 1];
    }
  }

  /** What can happen on a connection opened by a subscriber who last read the row at `at`: that row is not published again. */
  ghost predicate Possible(log: seq<Row>, at: nat, c: Connection) {
    && at < c.logged <= |log| && at < c.published && Until(c) <= |log|
    && forall j :: c.published <= j < Until(c) ==> log[j].created > c.horizon
  }

  function Page(log: seq<Row>, at: nat, c: Connection): seq<Row>
    requires at < c.logged <= |log|
  {
    ReplaySince(log[..c.logged], c.horizon, log[at].id)
  }

  function Sent(log: seq<Row>, at: nat, c: Connection, v: View): string
    requires at < c.logged <= |log| && Until(c) <= |log|
  {
    Sse.Wire(Sse.Selected(RowItems(Page(log, at, c), v) + TickItems(log, c.published, c.ticks, v), v.types, v.aboutEmail))
  }

  /** The handler: the replay page first, then the live loop. */
  method ServeStream(log: seq<Row>, at: nat, c: Connection, v: View) returns (sent: string)
    requires at < c.logged <= |log| && Until(c) <= |log|
    ensures sent == Sent(log, at, c, v)
  {
    var missed := ReplaySince(log[..c.logged], c.horizon, log[at].id);
    var replay := Sse.StreamEmailEvents(RowItems(missed, v), v.types, v.aboutEmail);
    var live := Sse.StreamEmailEvents(TickItems(log, c.published, c.ticks, v), v.types, v.aboutEmail);
    sent := replay + live;
    SelectedAppend(RowItems(missed, v), TickItems(log, c.published, c.ticks, v), v);
    WireJoins(Sse.Selected(RowItems(missed, v), v.types, v.aboutEmail),
              Sse.Selected(TickItems(log, c.published, c.ticks, v), v.types, v.aboutEmail));
  }

  lemma {:induction false} SelectedAppend(a: seq<Sse.Item>, b: seq<Sse.Item>, v: View)
    ensures Sse.Selected(a + b, v.types, v.aboutEmail)
         == Sse.Selected(a, v.types, v.aboutEmail) + Sse.Selected(b, v.types, v.aboutEmail)
  {
    hide Sse.Wanted;
    if b == [] {
      assert a + b == a;
    } else {
      var front, last := b[..|b| - 1], b[|b| - 1];
      assert (a + b)[..|a + b| - 1] == a + front;
      SelectedAppend(a, front, v);
      Regroup(Sse.Selected(a, v.types, v.aboutEmail), Sse.Selected(front, v.types, v.aboutEmail),
              if Sse.Wanted(last, v.types, v.aboutEmail) then [last] else []);
    }
  }

  lemma {:induction false} WireJoins(a: seq<Sse.Item>, b: seq<Sse.Item>)
    ensures Sse.Wire(a + b) == Sse.Wire(a) + Sse.Wire(b)
  {
    hide Sse.Frame;
    if a == [] {
      assert a + b == b;
    } else {
      WireJoins(a[1..], b);
      TailOfSum(a, b);
      Regroup(Sse.Frame(a[0]), Sse.Wire(a[1..]), Sse.Wire(b));
    }
  }

  // ----- The rows it writes -----

  function SkipStale(log: seq<Row>, i: nat, hi: nat, horizon: int): (k: nat)
    requires i <= hi <= |log|
    ensures i <= k <= hi && (k < hi ==> log[k].created > horizon)
    ensures forall j :: i <= j < k ==> log[j].created <= horizon
    decreases hi - i
  {
    if i < hi && log[i].created <= horizon then SkipStale(log, i + 1, hi, horizon) else i
  }

  /** The replay page covers the rows from its start to its end. */
  function PageStart(log: seq<Row>, at: nat, c: Connection): (k: nat)
    requires at < c.logged <= |log|
  {
    SkipStale(log, at + 1, c.logged, c.horizon)
  }

  function PageEnd(log: seq<Row>, at: nat, c: Connection): nat
    requires at < c.logged <= |log|
  {
    var k := PageStart(log, at, c);
    if c.logged - k <= REPLAY_PAGE then c.logged else k + REPLAY_PAGE
  }

  lemma PageIs(log: seq<Row>, at: nat, c: Connection)
    requires Ascending(log) && at < c.logged <= |log|
    ensures PageStart(log, at, c) <= PageEnd(log, at, c) <= c.logged
    ensures Page(log, at, c) == log[PageStart(log, at, c)..PageEnd(log, at, c)]
    ensures Newer(log[..c.logged], c.horizon, log[at]) == log[PageStart(log, at, c)..c.logged]
  {
    hide Newer, Find;
    var table, s := log[..c.logged], PageStart(log, at, c);
    assert table[at] == log[at];
    FindAt(table, at);
    var k := NewerIsTail(table, c.horizon, log[at]);
    assert k <= s;
    assert !(table[s - 1].created > c.horizon && Before(log[at], table[s - 1]));
    assert table[s..] == log[s..c.logged];
    TakeRange(log, s, c.logged, REPLAY_PAGE);
  }

  lemma TakeRange(log: seq<Row>, lo: nat, hi: nat, n: nat)
    requires lo <= hi <= |log|
    ensures Take(log[lo..hi], n) == log[lo..if hi - lo <= n then hi else lo + n]
  {
  }

  /** The positions of the rows from lo to hi that pass the filters in that form. */
  function Asks(log: seq<Row>, lo: nat, hi: nat, v: View, f: Form): seq<nat>
    requires hi <= |log|
    decreases hi - lo
  {
    if lo >= hi then [] else Asks(log, lo, hi - 1, v, f) + if Passes(v, f, log[hi - 1]) then [hi - 1] else []
  }

  ghost predicate Rising(ids: seq<nat>) { forall k, l :: 0 <= k < l < |ids| ==> ids[k] < ids[l] }

  lemma {:induction false} AsksAre(log: seq<Row>, lo: nat, hi: nat, v: View, f: Form)
    requires hi <= |log|
    ensures forall j :: j in Asks(log, lo, hi, v, f) <==> lo <= j < hi && Passes(v, f, log[j])
    ensures Rising(Asks(log, lo, hi, v, f))
    decreases hi - lo
  {
    hide Passes, Rising;
    if lo < hi {
      AsksAre(log, lo, hi - 1, v, f);
      RisingSnoc(Asks(log, lo, hi - 1, v, f), hi - 1);
      Regroup(Asks(log, lo, hi - 1, v, f), [], []);
    } else {
      NoneRise();
    }
  }

  lemma RisingSnoc(ids: seq<nat>, x: nat)
    requires Rising(ids) && forall j :: j in ids ==> j < x
    ensures Rising(ids + [x])
  {
    forall k | 0 <= k < |ids| ensures ids[k] < x { assert ids[k] in ids; }
  }

  function PageIds(log: seq<Row>, at: nat, c: Connection, v: View): seq<nat>
    requires at < c.logged <= |log|
  {
    Asks(log, PageStart(log, at, c), PageEnd(log, at, c), v, Stored)
  }

  function LiveIds(log: seq<Row>, c: Connection, v: View): seq<nat>
    requires Until(c) <= |log|
  {
    Asks(log, c.published, Until(c), v, Published)
  }

  function Ids(log: seq<Row>, at: nat, c: Connection, v: View): seq<nat>
    requires at < c.logged <= |log| && Until(c) <= |log|
  {
    PageIds(log, at, c, v) + LiveIds(log, c, v)
  }

  /** A row as it was written. */
  datatype Copy = Copy(form: Form, row: nat)

  function Copies(ids: seq<nat>, f: Form): seq<Copy> { seq(|ids|, k requires 0 <= k < |ids| => Copy(f, ids[k])) }

  function Rows(copies: seq<Copy>): seq<nat> { seq(|copies|, k requires 0 <= k < |copies| => copies[k].row) }

  function Written(log: seq<Row>, at: nat, c: Connection, v: View): (copies: seq<Copy>)
    requires at < c.logged <= |log| && Until(c) <= |log|
    ensures Rows(copies) == Ids(log, at, c, v) && |copies| == |Ids(log, at, c, v)|
  {
    Copies(PageIds(log, at, c, v), Stored) + Copies(LiveIds(log, c, v), Published)
  }

  ghost predicate AllEvents(log: seq<Row>, v: View) {
    forall i, f :: 0 <= i < |log| ==> Frame(v, f, log[i]).Event?
  }

  ghost predicate GoodLog(json: string -> bool, log: seq<Row>, v: View) {
    AllEvents(log, v) && forall i, f :: 0 <= i < |log| ==> Sse.GoodItem(json, Frame(v, f, log[i]))
  }

  function BodyAt(log: seq<Row>, copy: Copy, v: View): string {
    if copy.row < |log| && Frame(v, copy.form, log[copy.row]).Event? then Frame(v, copy.form, log[copy.row]).body else ""
  }

  function BodiesAt(log: seq<Row>, copies: seq<Copy>, v: View): (r: seq<string>)
    ensures |r| == |copies| && forall k :: 0 <= k < |copies| ==> r[k] == BodyAt(log, copies[k], v)
  {
    seq(|copies|, k requires 0 <= k < |copies| => BodyAt(log, copies[k], v))
  }

  lemma BodiesAtJoin(log: seq<Row>, a: seq<Copy>, b: seq<Copy>, v: View)
    ensures BodiesAt(log, a + b, v) == BodiesAt(log, a, v) + BodiesAt(log, b, v)
  {
  }

  lemma CopiesJoin(log: seq<Row>, a: seq<nat>, b: seq<nat>, v: View, f: Form)
    ensures BodiesAt(log, Copies(a + b, f), v) == BodiesAt(log, Copies(a, f), v) + BodiesAt(log, Copies(b, f), v)
  {
  }

  // ----- What a reader has of it -----

  datatype Reader = Go | Js

  function Read(reader: Reader, json: string -> bool, text: string): seq<string> {
    match reader case Go => Sse.GoEvents(json, text) case Js => Sse.JsEvents(json, text)
  }

  function SelectedBodies(items: seq<Sse.Item>, v: View): seq<string> {
    Sse.Bodies(Sse.Selected(items, v.types, v.aboutEmail))
  }

  lemma {:induction false} BodiesJoin(a: seq<Sse.Item>, b: seq<Sse.Item>)
    ensures Sse.Bodies(a + b) == Sse.Bodies(a) + Sse.Bodies(b)
  {
    if a == [] {
      assert a + b == b;
    } else {
      BodiesJoin(a[1..], b);
      TailOfSum(a, b);
      Regroup(if a[0].Event? then [a[0].body] else [], Sse.Bodies(a[1..]), Sse.Bodies(b));
    }
  }

  lemma SelectedBodiesJoin(a: seq<Sse.Item>, b: seq<Sse.Item>, v: View)
    ensures SelectedBodies(a + b, v) == SelectedBodies(a, v) + SelectedBodies(b, v)
  {
    SelectedAppend(a, b, v);
    BodiesJoin(Sse.Selected(a, v.types, v.aboutEmail), Sse.Selected(b, v.types, v.aboutEmail));
  }

  lemma SelectedOne(it: Sse.Item, v: View)
    ensures Sse.Selected([it], v.types, v.aboutEmail) == if Sse.Wanted(it, v.types, v.aboutEmail) then [it] else []
  {
    assert [it][..0] == [];
  }

  lemma BodiesOfItem(it: Sse.Item)
    ensures Sse.Bodies([it]) == if it.Event? then [it.body] else []
  {
    assert [it][1..] == [];
  }

  /** One row's frame carries its body if it passes the filters. */
  lemma RowBody(log: seq<Row>, i: nat, v: View, f: Form)
    requires i < |log| && Frame(v, f, log[i]).Event?
    ensures SelectedBodies([Frame(v, f, log[i])], v) == BodiesAt(log, Copies(if Passes(v, f, log[i]) then [i] else [], f), v)
  {
    hide Sse.Selected, Sse.Bodies, Sse.Wanted;
    SelectedOne(Frame(v, f, log[i]), v);
    BodiesOfItem(Frame(v, f, log[i]));
    NoBodies(v);
  }

  lemma PingBody(v: View)
    ensures SelectedBodies([Sse.Ping], v) == []
  {
    hide Sse.Selected, Sse.Bodies;
    SelectedOne(Sse.Ping, v);
    BodiesOfItem(Sse.Ping);
  }

  lemma NoBodies(v: View)
    ensures SelectedBodies([], v) == [] && Sse.Bodies([]) == []
  {
  }

  lemma SliceFront(log: seq<Row>, lo: nat, hi: nat)
    requires lo < hi <= |log|
    ensures var rows := log[lo..hi]; rows[..|rows| - 1] == log[lo..hi - 1] && rows[|rows| - 1] == log[hi - 1]
  {
  }

  lemma {:induction false} RowBodies(log: seq<Row>, lo: nat, hi: nat, v: View)
    requires lo <= hi <= |log| && AllEvents(log, v)
    ensures SelectedBodies(RowItems(log[lo..hi], v), v) == BodiesAt(log, Copies(Asks(log, lo, hi, v, Stored), Stored), v)
    decreases hi - lo
  {
    hide SelectedBodies, Passes, BodiesAt, Copies;
    if lo == hi {
      NoBodies(v);
      NoAsks(log, lo, v, Stored);
    } else {
      var rows := log[lo..hi];
      RowBodies(log, lo, hi - 1, v);
      SliceFront(log, lo, hi);
      assert v.stored(log[hi - 1]) == Frame(v, Stored, log[hi - 1]);
      SelectedBodiesJoin(RowItems(log[lo..hi - 1], v), [v.stored(log[hi - 1])], v);
      RowBody(log, hi - 1, v, Stored);
      CopiesJoin(log, Asks(log, lo, hi - 1, v, Stored), if Passes(v, Stored, log[hi - 1]) then [hi - 1] else [], v, Stored);
    }
  }

  lemma {:induction false} AsksFromFront(log: seq<Row>, lo: nat, hi: nat, v: View, f: Form)
    requires lo < hi <= |log|
    ensures Asks(log, lo, hi, v, f) == (if Passes(v, f, log[lo]) then [lo] else []) + Asks(log, lo + 1, hi, v, f)
    decreases hi
  {
    hide Passes;
    var last := if Passes(v, f, log[hi - 1]) then [hi - 1] else [];
    if lo + 1 < hi {
      AsksFromFront(log, lo, hi - 1, v, f);
      Regroup(if Passes(v, f, log[lo]) then [lo] else [], Asks(log, lo + 1, hi - 1, v, f), last);
    } else {
      Regroup(last, [], []);
    }
  }

  lemma {:induction false} TickBodies(log: seq<Row>, p: nat, ticks: seq<Tick>, v: View)
    requires p + Lives(ticks) <= |log| && AllEvents(log, v)
    ensures SelectedBodies(TickItems(log, p, ticks, v), v)
         == BodiesAt(log, Copies(Asks(log, p, p + Lives(ticks), v, Published), Published), v)
    decreases |ticks|
  {
    hide SelectedBodies, Passes, BodiesAt, Asks, Copies;
    var asks := Asks(log, p, p + Lives(ticks), v, Published);
    if ticks == [] {
      NoBodies(v);
      NoAsks(log, p, v, Published);
    } else if ticks[0].Live? {
      TickBodies(log, p + 1, ticks[1..], v);
      assert v.event(log[p]) == Frame(v, Published, log[p]);
      SelectedBodiesJoin([v.event(log[p])], TickItems(log, p + 1, ticks[1..], v), v);
      RowBody(log, p, v, Published);
      AsksFromFront(log, p, p + Lives(ticks), v, Published);
      CopiesJoin(log, if Passes(v, Published, log[p]) then [p] else [], Asks(log, p + 1, p + Lives(ticks), v, Published), v, Published);
    } else {
      TickBodies(log, p, ticks[1..], v);
      SelectedBodiesJoin([Sse.Ping], TickItems(log, p, ticks[1..], v), v);
      PingBody(v);
      Regroup(BodiesAt(log, Copies(asks, Published), v), [], []);
    }
  }

  lemma {:induction false} NoAsks(log: seq<Row>, p: nat, v: View, f: Form)
    requires p <= |log|
    ensures Asks(log, p, p, v, f) == [] && BodiesAt(log, [], v) == [] && BodiesAt(log, Copies([], f), v) == []
  {
  }

  lemma {:induction false} RowsAreGood(json: string -> bool, log: seq<Row>, lo: nat, hi: nat, v: View)
    requires lo <= hi <= |log| && GoodLog(json, log, v)
    ensures Sse.GoodItems(json, RowItems(log[lo..hi], v))
    decreases hi - lo
  {
    hide Sse.GoodItem;
    if lo < hi {
      RowsAreGood(json, log, lo, hi - 1, v);
      assert log[lo..hi][..hi - lo - 1] == log[lo..hi - 1];
      assert v.stored(log[hi - 1]) == Frame(v, Stored, log[hi - 1]);
    }
  }

  lemma {:induction false} TicksAreGood(json: string -> bool, log: seq<Row>, p: nat, ticks: seq<Tick>, v: View)
    requires p + Lives(ticks) <= |log| && GoodLog(json, log, v)
    ensures Sse.GoodItems(json, TickItems(log, p, ticks, v))
    decreases |ticks|
  {
    hide Sse.GoodItem;
    if ticks != [] {
      TicksAreGood(json, log, if ticks[0].Live? then p + 1 else p, ticks[1..], v);
      assert ticks[0].Live? ==> v.event(log[p]) == Frame(v, Published, log[p]);
      PingIsGood(json);
    }
  }

  lemma PingIsGood(json: string -> bool)
    ensures Sse.GoodItem(json, Sse.Ping)
  {
  }

  /** Cut anywhere, either reader has the bodies of the first of the rows written, as written, in order; uncut, of all. */
  lemma ReadsFirstIds(reader: Reader, json: string -> bool, log: seq<Row>, at: nat, c: Connection, v: View, cut: nat)
    requires Ascending(log) && GoodLog(json, log, v) && at < c.logged <= |log| && Until(c) <= |log|
    requires cut <= |Sent(log, at, c, v)|
    ensures var ids, got := Ids(log, at, c, v), Read(reader, json, Sent(log, at, c, v)[..cut]);
            && |got| <= |ids| && got == BodiesAt(log, Written(log, at, c, v)[..|got|], v)
            && (cut == |Sent(log, at, c, v)| ==> |got| == |ids|)
  {
    hide Sse.JsEvents, Sse.GoEvents, Sse.Complete, Sse.Pending, Sse.Wire, Sse.Selected, Sse.Bodies, Asks, BodiesAt,
         PageStart, PageEnd, Page, RowItems, TickItems, Ascending, Sse.GoodItem;
    var rows, ticks := RowItems(Page(log, at, c), v), TickItems(log, c.published, c.ticks, v);
    var lo, hi := PageStart(log, at, c), PageEnd(log, at, c);
    PageIs(log, at, c);
    RowBodies(log, lo, hi, v);
    TickBodies(log, c.published, c.ticks, v);
    SelectedBodiesJoin(rows, ticks, v);
    BodiesAtJoin(log, Copies(PageIds(log, at, c, v), Stored), Copies(LiveIds(log, c, v), Published), v);
    RowsAreGood(json, log, lo, hi, v);
    TicksAreGood(json, log, c.published, c.ticks, v);
    Sse.SelectedAreGood(json, rows + ticks, v.types, v.aboutEmail);
    var items := Sse.Selected(rows + ticks, v.types, v.aboutEmail);
    Sse.CutStream(json, items, cut);
    var copies, got := Written(log, at, c, v), Read(reader, json, Sent(log, at, c, v)[..cut]);
    assert Sse.Bodies(items) == BodiesAt(log, copies, v);
    assert |copies| == |Rows(copies)|;
    BodiesAtTake(log, copies, |got|, v);
    if cut == |Sse.Wire(items)| {
      Sse.WholeStream(json, items);
      assert Sse.Wire(items)[..cut] == Sse.Wire(items);
    }
  }

  lemma BodiesAtTake(log: seq<Row>, copies: seq<Copy>, n: nat, v: View)
    requires n <= |copies|
    ensures BodiesAt(log, copies[..n], v) == BodiesAt(log, copies, v)[..n] && |BodiesAt(log, copies, v)| == |copies|
  {
  }

  // ----- What one connection passes over -----

  /** A row asked for that was not read although a later one was; from there on no replay returns it. */
  ghost predicate PassedOver(log: seq<Row>, at: nat, read: seq<nat>, v: View, j: nat) {
    at < j < |log| && Asked(v, log[j]) && j !in read && Passed(read, j)
  }

  ghost predicate Passed(read: seq<nat>, j: nat) { exists r :: r in read && j < r }

  /**
    A row asked for, of which the first n rows written skip. It is older than the horizon when the replay is read; or it
    comes after the page and was published before the subscription, which counts once a live row has been read; or it
    is on the page but what is stored of it does not pass the filters, and it is not read live before a later row is.
   */
  ghost predicate Skips(log: seq<Row>, at: nat, c: Connection, v: View, n: nat, j: nat)
    requires at < c.logged <= |log| && Until(c) <= |log| && n <= |Ids(log, at, c, v)|
  {
    var lo, hi, read := PageStart(log, at, c), PageEnd(log, at, c), Ids(log, at, c, v)[..n];
    && at < j < |log| && Asked(v, log[j])
    && ((n > 0 && j < lo)
        || (n > |PageIds(log, at, c, v)| && hi <= j < c.published)
        || (lo <= j < hi && !Passes(v, Stored, log[j]) && j !in read && Passed(read, j)))
  }

  lemma {:induction false} AsksPrefix(log: seq<Row>, lo: nat, hi: nat, v: View, f: Form, m: nat)
    requires hi <= |log| && m <= |Asks(log, lo, hi, v, f)|
    ensures var p := Asks(log, lo, hi, v, f)[..m];
            && Rising(p) && (forall r :: r in p ==> lo <= r < hi)
            && (forall j, r :: lo <= j < r && r in p && Passes(v, f, log[j]) ==> j in p)
  {
    hide Asks, Passes;
    AsksAre(log, lo, hi, v, f);
    var all := Asks(log, lo, hi, v, f);
    var p := all[..m];
    forall r | r in p ensures lo <= r < hi { assert r in all; }
    forall j, r | lo <= j < r && r in p && Passes(v, f, log[j]) ensures j in p {
      assert r in all && j in all;
      var k :| 0 <= k < |all| && all[k] == j;
      var l :| 0 <= l < m && p[l] == r;
      assert all[l] == r;
      assert p[k] == j;
    }
  }

  lemma PageBounds(log: seq<Row>, at: nat, c: Connection)
    requires Possible(log, at, c)
    ensures at < PageStart(log, at, c) <= PageEnd(log, at, c) <= c.logged
    ensures c.published < Until(c) ==> PageStart(log, at, c) <= c.published
  {
    assert c.published < Until(c) ==> log[c.published].created > c.horizon;
  }

  /** What a reader of the first n rows written has: part of the page, or all of it and part of the live rows. */
  lemma ReadSplits(log: seq<Row>, at: nat, c: Connection, v: View, n: nat)
    requires Possible(log, at, c) && n <= |Ids(log, at, c, v)|
    ensures var page, live := PageIds(log, at, c, v), LiveIds(log, c, v);
            |Ids(log, at, c, v)| == |page| + |live|
            && Ids(log, at, c, v)[..n] == if n <= |page| then page[..n] else page + live[..n - |page|]
  {
  }

  lemma SkipsExactly(log: seq<Row>, at: nat, c: Connection, v: View, n: nat, j: nat)
    requires Possible(log, at, c) && n <= |Ids(log, at, c, v)|
    ensures PassedOver(log, at, Ids(log, at, c, v)[..n], v, j) <==> Skips(log, at, c, v, n, j)
  {
    hide Asks, Passes, PageStart, PageEnd, Ids, Passed;
    PageBounds(log, at, c);
    ReadSplits(log, at, c, v, n);
    var page := PageIds(log, at, c, v);
    if at < j < |log| && Asked(v, log[j]) {
      if n <= |page| { ReadOfPage(log, at, c, v, n, j); } else { ReadOfLive(log, at, c, v, n - |page|, j); }
    }
  }

  /** With only page rows read, a row not read before one that was is older than the page or does not pass as stored. */
  lemma ReadOfPage(log: seq<Row>, at: nat, c: Connection, v: View, n: nat, j: nat)
    requires Possible(log, at, c) && n <= |PageIds(log, at, c, v)| && at < j < |log|
    ensures var lo, hi, read := PageStart(log, at, c), PageEnd(log, at, c), PageIds(log, at, c, v)[..n];
            && (n > 0 && j < lo ==> j !in read && Passed(read, j))
            && (j !in read && Passed(read, j) ==> n > 0 && j < hi && (j >= lo ==> !Passes(v, Stored, log[j])))
  {
    hide Asks, Passes, PageStart, PageEnd;
    PageBounds(log, at, c);
    var read := PageIds(log, at, c, v)[..n];
    AsksPrefix(log, PageStart(log, at, c), PageEnd(log, at, c), v, Stored, n);
    if n > 0 { assert read[0] in read; }
  }

  /** With live rows read, it may also lie between the page and the subscription. */
  lemma ReadOfLive(log: seq<Row>, at: nat, c: Connection, v: View, m: nat, j: nat)
    requires Possible(log, at, c) && 0 < m <= |LiveIds(log, c, v)| && at < j < |log| && Asked(v, log[j])
    ensures var lo, hi, read := PageStart(log, at, c), PageEnd(log, at, c), PageIds(log, at, c, v) + LiveIds(log, c, v)[..m];
            && (j < lo || hi <= j < c.published ==> j !in read && Passed(read, j))
            && (j !in read && Passed(read, j) ==>
                  || j < lo || hi <= j < c.published
                  || (lo <= j < hi && !Passes(v, Stored, log[j])))
  {
    hide Asks, Passes, PageStart, PageEnd;
    PageBounds(log, at, c);
    var page, live := PageIds(log, at, c, v), LiveIds(log, c, v)[..m];
    AsksAre(log, PageStart(log, at, c), PageEnd(log, at, c), v, Stored);
    AsksPrefix(log, c.published, Until(c), v, Published, m);
    assert live[0] in live && c.published < Until(c);
    var read := page + live;
    assert live[0] in read;
  }

  // ----- Sessions: any number of connections -----

  function Last(at: nat, ids: seq<nat>): nat { if ids == [] then at else ids[|ids| - 1] }

  function Received(log: seq<Row>, at: nat, c: Connection, v: View): string
    requires at < c.logged <= |log| && Until(c) <= |log| && c.cut <= |Sent(log, at, c, v)|
  {
    Sent(log, at, c, v)[..c.cut]
  }

  /** The rows whose events the reader has. */
  ghost function Got(reader: Reader, json: string -> bool, log: seq<Row>, at: nat, c: Connection, v: View): (ids: seq<nat>)
    requires Ascending(log) && GoodLog(json, log, v) && at < c.logged <= |log| && Until(c) <= |log|
    requires c.cut <= |Sent(log, at, c, v)|
    ensures ids <= Ids(log, at, c, v)
    ensures Read(reader, json, Received(log, at, c, v)) == BodiesAt(log, Written(log, at, c, v)[..|ids|], v)
  {
    ReadsFirstIds(reader, json, log, at, c, v, c.cut);
    Ids(log, at, c, v)[..|Read(reader, json, Received(log, at, c, v))|]
  }

  /** Each connection is opened with the id of the row read last before it. */
  ghost predicate PossibleRun(reader: Reader, json: string -> bool, log: seq<Row>, at: nat, conns: seq<Connection>, v: View)
    requires Ascending(log) && GoodLog(json, log, v)
    decreases |conns|
  {
    conns != [] ==>
      && Possible(log, at, conns[0]) && conns[0].cut <= |Sent(log, at, conns[0], v)|
      && PossibleRun(reader, json, log, Last(at, Got(reader, json, log, at, conns[0], v)), conns[1..], v)
  }

  /** The rows read on all connections, in order, and the texts themselves. */
  ghost function AllIds(reader: Reader, json: string -> bool, log: seq<Row>, at: nat, conns: seq<Connection>, v: View): seq<nat>
    requires Ascending(log) && GoodLog(json, log, v) && PossibleRun(reader, json, log, at, conns, v)
    decreases |conns|
  {
    if conns == [] then []
    else
      var got := Got(reader, json, log, at, conns[0], v);
      got + AllIds(reader, json, log, Last(at, got), conns[1..], v)
  }

  /** The same rows as they were written, and the texts themselves. */
  ghost function AllCopies(reader: Reader, json: string -> bool, log: seq<Row>, at: nat, conns: seq<Connection>, v: View): seq<Copy>
    requires Ascending(log) && GoodLog(json, log, v) && PossibleRun(reader, json, log, at, conns, v)
    decreases |conns|
  {
    if conns == [] then []
    else
      var got := Got(reader, json, log, at, conns[0], v);
      Written(log, at, conns[0], v)[..|got|] + AllCopies(reader, json, log, Last(at, got), conns[1..], v)
  }

  ghost function AllRead(reader: Reader, json: string -> bool, log: seq<Row>, at: nat, conns: seq<Connection>, v: View): seq<string>
    requires Ascending(log) && GoodLog(json, log, v) && PossibleRun(reader, json, log, at, conns, v)
    decreases |conns|
  {
    if conns == [] then []
    else
      var got := Got(reader, json, log, at, conns[0], v);
      Read(reader, json, Received(log, at, conns[0], v)) + AllRead(reader, json, log, Last(at, got), conns[1..], v)
  }

  lemma RowsJoin(a: seq<Copy>, b: seq<Copy>)
    ensures Rows(a + b) == Rows(a) + Rows(b)
  {
  }

  lemma RowsTake(a: seq<Copy>, n: nat)
    requires n <= |a|
    ensures Rows(a[..n]) == Rows(a)[..n]
  {
  }

  /** What is read are the bodies of rows, each in the form in which it was written. */
  lemma {:induction false} AllReadIsAllCopies(reader: Reader, json: string -> bool, log: seq<Row>, at: nat, conns: seq<Connection>, v: View)
    requires Ascending(log) && GoodLog(json, log, v) && PossibleRun(reader, json, log, at, conns, v)
    ensures var copies := AllCopies(reader, json, log, at, conns, v);
            AllRead(reader, json, log, at, conns, v) == BodiesAt(log, copies, v)
            && Rows(copies) == AllIds(reader, json, log, at, conns, v)
    decreases |conns|
  {
    hide Ascending, GoodLog, Got, Sent, Read, BodiesAt, Received, Ids, Rows;
    if conns == [] {
      assert BodiesAt(log, [], v) == [] && Rows([]) == [] by { NoAsks(log, 0, v, Stored); NoRows(); }
    } else {
      var got := Got(reader, json, log, at, conns[0], v);
      var first, rest := Written(log, at, conns[0], v)[..|got|], AllCopies(reader, json, log, Last(at, got), conns[1..], v);
      AllReadIsAllCopies(reader, json, log, Last(at, got), conns[1..], v);
      BodiesAtJoin(log, first, rest, v);
      RowsJoin(first, rest);
      RowsTake(Written(log, at, conns[0], v), |got|);
    }
  }

  lemma NoRows()
    ensures Rows([]) == []
  {
  }

  /** Everything read lies after the row the connection started from. */
  lemma IdsAfter(log: seq<Row>, at: nat, c: Connection, v: View, got: seq<nat>)
    requires Possible(log, at, c) && got <= Ids(log, at, c, v)
    ensures forall r :: r in got ==> at < r < |log|
    ensures at <= Last(at, got) && (got != [] ==> at < Last(at, got) && Last(at, got) in got)
  {
    hide Asks, PageStart, PageEnd;
    PageBounds(log, at, c);
    AsksAre(log, PageStart(log, at, c), PageEnd(log, at, c), v, Stored);
    AsksAre(log, c.published, Until(c), v, Published);
    forall r | r in got ensures at < r < |log| { assert r in Ids(log, at, c, v); }
    if got != [] { assert got[|got| - 1] in got; }
  }

  lemma {:induction false} AllIdsAfter(reader: Reader, json: string -> bool, log: seq<Row>, at: nat, conns: seq<Connection>, v: View)
    requires Ascending(log) && GoodLog(json, log, v) && PossibleRun(reader, json, log, at, conns, v)
    ensures forall r :: r in AllIds(reader, json, log, at, conns, v) ==> at < r
    decreases |conns|
  {
    hide Ascending, GoodLog, Got, Sent, Ids;
    if conns != [] {
      var got := Got(reader, json, log, at, conns[0], v);
      IdsAfter(log, at, conns[0], v, got);
      AllIdsAfter(reader, json, log, Last(at, got), conns[1..], v);
    }
  }

  /** Every row asked for after the start, and before one that was read, has been read. */
  ghost predicate Intact(log: seq<Row>, start: nat, read: seq<nat>, v: View) {
    forall j :: !PassedOver(log, start, read, v, j)
  }

  ghost predicate Among(ids: seq<nat>, read: seq<nat>) { forall i :: i in ids ==> i in read }

  ghost predicate SkipsAmong(log: seq<Row>, at: nat, c: Connection, v: View, n: nat, read: seq<nat>)
    requires at < c.logged <= |log| && Until(c) <= |log| && n <= |Ids(log, at, c, v)|
  {
    forall j :: Skips(log, at, c, v, n, j) ==> j in read
  }

  /** Every row that some connection skips is among these. */
  ghost predicate SkipsWithin(reader: Reader, json: string -> bool, log: seq<Row>, at: nat, conns: seq<Connection>, v: View, read: seq<nat>)
    requires Ascending(log) && GoodLog(json, log, v) && PossibleRun(reader, json, log, at, conns, v)
    decreases |conns|
  {
    conns != [] ==>
      var got := Got(reader, json, log, at, conns[0], v);
      && SkipsAmong(log, at, conns[0], v, |got|, read)
      && SkipsWithin(reader, json, log, Last(at, got), conns[1..], v, read)
  }

  lemma SkipsAre(log: seq<Row>, at: nat, c: Connection, v: View, got: seq<nat>)
    requires Possible(log, at, c) && got <= Ids(log, at, c, v)
    ensures forall j :: PassedOver(log, at, got, v, j) <==> Skips(log, at, c, v, |got|, j)
  {
    hide PassedOver, Skips, Ids;
    assert got == Ids(log, at, c, v)[..|got|];
    forall j ensures PassedOver(log, at, got, v, j) <==> Skips(log, at, c, v, |got|, j) {
      SkipsExactly(log, at, c, v, |got|, j);
    }
  }

  /** If what a connection skips has been read, so has every row asked for before one that was read on it. */
  lemma ReadOrSkipped(log: seq<Row>, at: nat, c: Connection, v: View, got: seq<nat>, read: seq<nat>, j: nat, r: nat)
    requires Possible(log, at, c) && got <= Ids(log, at, c, v) && SkipsAmong(log, at, c, v, |got|, read)
    requires Among(got, read) && r in got && at < j < r && j < |log| && Asked(v, log[j])
    ensures j in read
  {
    hide Ids, Skips, Asked;
    SkipsAre(log, at, c, v, got);
    assert j !in got ==> PassedOver(log, at, got, v, j);
  }

  lemma AmongParts(a: seq<nat>, b: seq<nat>, read: seq<nat>)
    requires Among(a + b, read)
    ensures Among(a, read) && Among(b, read) && forall i :: i in a + b <==> i in a || i in b
  {
    assert forall i :: i in a ==> i in a + b;
    assert forall i :: i in b ==> i in a + b;
  }

  /** The same over all connections. */
  lemma {:induction false} NothingElseIsLost(reader: Reader, json: string -> bool, log: seq<Row>, at: nat, conns: seq<Connection>,
                                             v: View, read: seq<nat>, j: nat, r: nat)
    requires Ascending(log) && GoodLog(json, log, v) && PossibleRun(reader, json, log, at, conns, v)
    requires SkipsWithin(reader, json, log, at, conns, v, read)
    requires Among(AllIds(reader, json, log, at, conns, v), read)
    requires r in AllIds(reader, json, log, at, conns, v) && at < j < r && j < |log| && Asked(v, log[j])
    ensures j in read
    decreases |conns|
  {
    hide Ascending, GoodLog, Got, Sent, Ids, SkipsAmong, Asked, Among;
    var c := conns[0];
    var got := Got(reader, json, log, at, c, v);
    var next := Last(at, got);
    IdsAfter(log, at, c, v, got);
    AmongParts(got, AllIds(reader, json, log, next, conns[1..], v), read);
    if r in got {
      ReadOrSkipped(log, at, c, v, got, read, j, r);
    } else if j < next {
      ReadOrSkipped(log, at, c, v, got, read, j, next);
    } else if j > next {
      NothingElseIsLost(reader, json, log, next, conns[1..], v, read, j, r);
    } else {
      LastIsAmong(got, read, at, j);
    }
  }

  lemma LastIsAmong(got: seq<nat>, read: seq<nat>, at: nat, j: nat)
    requires Among(got, read) && Last(at, got) == j && j != at
    ensures j in read
  {
    assert got[|got| - 1] in got;
  }

  /** And what some connection skips is passed over unless it was read. */
  lemma {:induction false} SkippedIsLost(reader: Reader, json: string -> bool, log: seq<Row>, start: nat, at: nat,
                                         conns: seq<Connection>, v: View, read: seq<nat>)
    requires Ascending(log) && GoodLog(json, log, v) && PossibleRun(reader, json, log, at, conns, v)
    requires start <= at && Intact(log, start, read, v)
    requires Among(AllIds(reader, json, log, at, conns, v), read)
    ensures SkipsWithin(reader, json, log, at, conns, v, read)
    decreases |conns|
  {
    hide Ascending, GoodLog, Got, Sent, Ids, Intact, SkipsAmong, Among;
    if conns != [] {
      var got := Got(reader, json, log, at, conns[0], v);
      IdsAfter(log, at, conns[0], v, got);
      AmongParts(got, AllIds(reader, json, log, Last(at, got), conns[1..], v), read);
      SkippedHereIsLost(log, start, at, conns[0], v, got, read);
      SkippedIsLost(reader, json, log, start, Last(at, got), conns[1..], v, read);
    }
  }

  lemma SkippedHereIsLost(log: seq<Row>, start: nat, at: nat, c: Connection, v: View, got: seq<nat>, read: seq<nat>)
    requires Possible(log, at, c) && got <= Ids(log, at, c, v) && Among(got, read)
    requires start <= at && Intact(log, start, read, v)
    ensures SkipsAmong(log, at, c, v, |got|, read)
  {
    hide Ids, Skips, Asked;
    SkipsAre(log, at, c, v, got);
    forall j | PassedOver(log, at, got, v, j) ensures j in read {
      var r :| r in got && j < r;
      assert r in read && !PassedOver(log, start, read, v, j);
    }
  }

  /**
    Over any number of broken connections, by what either reader makes of the texts: no row asked for is missing before
    one that was read if and only if every row that a connection skips is read on another.
   */
  lemma {:induction false} ReconnectingLosesNothingIff(reader: Reader, json: string -> bool, log: seq<Row>, start: nat, conns: seq<Connection>, v: View)
    requires Ascending(log) && GoodLog(json, log, v) && start < |log| && PossibleRun(reader, json, log, start, conns, v)
    ensures var copies := AllCopies(reader, json, log, start, conns, v);
            && AllRead(reader, json, log, start, conns, v) == BodiesAt(log, copies, v)
            && (Intact(log, start, Rows(copies), v)
                <==> SkipsWithin(reader, json, log, start, conns, v, Rows(copies)))
  {
    hide Ascending, GoodLog, PossibleRun, AllIds, AllRead, AllCopies, SkipsWithin, Asked, Rows, BodiesAt;
    AllReadIsAllCopies(reader, json, log, start, conns, v);
    var read := AllIds(reader, json, log, start, conns, v);
    if SkipsWithin(reader, json, log, start, conns, v, read) {
      forall j ensures !PassedOver(log, start, read, v, j) {
        if PassedOver(log, start, read, v, j) {
          var r :| r in read && j < r;
          NothingElseIsLost(reader, json, log, start, conns, v, read, j, r);
        }
      }
    }
    if Intact(log, start, read, v) { SkippedIsLost(reader, json, log, start, start, conns, v, read); }
  }

  // ----- When the two forms of a row pass the filters alike -----

  ghost predicate Alike(log: seq<Row>, v: View) {
    forall i :: 0 <= i < |log| ==> (Passes(v, Stored, log[i]) <==> Asked(v, log[i]))
  }

  /** Then only rows older than the horizon and rows between page and subscription are skipped, all before the row read last. */
  lemma AlikeSkips(log: seq<Row>, at: nat, c: Connection, v: View, n: nat, j: nat)
    requires Possible(log, at, c) && n <= |Ids(log, at, c, v)| && Alike(log, v) && Skips(log, at, c, v, n, j)
    ensures (n > 0 && j < PageStart(log, at, c))
         || (n > |PageIds(log, at, c, v)| && PageEnd(log, at, c) <= j < c.published)
    ensures j < Last(at, Ids(log, at, c, v)[..n])
  {
    hide Asks, Passes, PageStart, PageEnd;
    PageBounds(log, at, c);
    ReadSplits(log, at, c, v, n);
    var page, live, read := PageIds(log, at, c, v), LiveIds(log, c, v), Ids(log, at, c, v)[..n];
    AsksAre(log, PageStart(log, at, c), PageEnd(log, at, c), v, Stored);
    AsksAre(log, c.published, Until(c), v, Published);
    if 0 < n <= |page| {
      assert read[n - 1] == page[n - 1] && page[n - 1] in page;
    } else if n > |page| {
      assert read[n - 1] == live[n - 1 - |page|] && live[n - 1 - |page|] in live;
    }
  }

  /** Each connection skips only rows read before it. */
  ghost predicate SkipsOnlyRead(reader: Reader, json: string -> bool, log: seq<Row>, at: nat, before: seq<nat>, conns: seq<Connection>, v: View)
    requires Ascending(log) && GoodLog(json, log, v) && PossibleRun(reader, json, log, at, conns, v)
    decreases |conns|
  {
    conns != [] ==>
      var got := Got(reader, json, log, at, conns[0], v);
      && SkipsAmong(log, at, conns[0], v, |got|, before)
      && SkipsOnlyRead(reader, json, log, Last(at, got), before + got, conns[1..], v)
  }

  /** So what is skipped unread is never made good by a later connection. */
  lemma {:induction false} AlikeIsNotMadeGood(reader: Reader, json: string -> bool, log: seq<Row>, at: nat, before: seq<nat>,
                                              conns: seq<Connection>, v: View)
    requires Ascending(log) && GoodLog(json, log, v) && PossibleRun(reader, json, log, at, conns, v) && Alike(log, v)
    ensures SkipsWithin(reader, json, log, at, conns, v, before + AllIds(reader, json, log, at, conns, v))
       <==> SkipsOnlyRead(reader, json, log, at, before, conns, v)
    decreases |conns|
  {
    hide Ascending, GoodLog, Got, Sent, Ids, Skips, Alike;
    if conns != [] {
      var c := conns[0];
      var got := Got(reader, json, log, at, c, v);
      var rest := AllIds(reader, json, log, Last(at, got), conns[1..], v);
      AllIdsAfter(reader, json, log, Last(at, got), conns[1..], v);
      SkipsAre(log, at, c, v, got);
      assert got == Ids(log, at, c, v)[..|got|];
      forall j | Skips(log, at, c, v, |got|, j) ensures j in before + (got + rest) <==> j in before {
        AlikeSkips(log, at, c, v, |got|, j);
        assert PassedOver(log, at, got, v, j);
      }
      Regroup(before, got, rest);
      AlikeIsNotMadeGood(reader, json, log, Last(at, got), before + got, conns[1..], v);
    }
  }

  /** No event comes twice unless one already logged when a replay was read is published after the subscription. */
  lemma {:induction false} NothingTwice(reader: Reader, json: string -> bool, log: seq<Row>, at: nat, conns: seq<Connection>, v: View)
    requires Ascending(log) && GoodLog(json, log, v) && PossibleRun(reader, json, log, at, conns, v)
    requires forall i :: 0 <= i < |conns| ==> conns[i].logged <= conns[i].published
    ensures Rising(AllIds(reader, json, log, at, conns, v))
    decreases |conns|
  {
    hide Ascending, GoodLog, Got, Sent, Ids, Rising;
    if conns == [] {
      NoneRise();
    } else {
      var got := Got(reader, json, log, at, conns[0], v);
      IdsRise(log, at, conns[0], v, got);
      NothingTwice(reader, json, log, Last(at, got), conns[1..], v);
      AllIdsAfter(reader, json, log, Last(at, got), conns[1..], v);
      RisingJoin(got, AllIds(reader, json, log, Last(at, got), conns[1..], v));
    }
  }

  lemma NoneRise()
    ensures Rising([])
  {
  }

  lemma RisingJoin(a: seq<nat>, b: seq<nat>)
    requires Rising(a) && Rising(b) && forall r :: r in b ==> Last(0, a) < r || a == []
    ensures Rising(a + b)
  {
    forall l | 0 <= l < |b| && a != [] ensures a[|a| - 1] < b[l] { assert b[l] in b; }
  }

  lemma IdsRise(log: seq<Row>, at: nat, c: Connection, v: View, got: seq<nat>)
    requires Possible(log, at, c) && c.logged <= c.published && got <= Ids(log, at, c, v)
    ensures Rising(got)
  {
    hide Asks, PageStart, PageEnd;
    PageBounds(log, at, c);
    var page, live := PageIds(log, at, c, v), LiveIds(log, c, v);
    AsksAre(log, PageStart(log, at, c), PageEnd(log, at, c), v, Stored);
    AsksAre(log, c.published, Until(c), v, Published);
    if page != [] { assert page[|page| - 1] in page; }
    RisingJoin(page, live);
    assert forall k :: 0 <= k < |got| ==> got[k] == Ids(log, at, c, v)[k];
  }

  // ----- The page limit -----

  /**
    A reconnect that asks for everything, with no gap before the subscription and nothing older than the horizon:
    what is written passes nothing over exactly when the rows missed fit on one page or nothing is published after.
   */
  lemma OnePageIff(log: seq<Row>, at: nat, c: Connection, v: View)
    requires Ascending(log) && Possible(log, at, c) && c.published == c.logged
    requires (forall row, f :: Passes(v, f, row)) && (at + 1 < c.logged ==> log[at + 1].created > c.horizon)
    ensures Intact(log, at, Ids(log, at, c, v), v)
       <==> |Newer(log[..c.logged], c.horizon, log[at])| <= 500 || Lives(c.ticks) == 0
  {
    hide Asks, Passes, Ids, Newer, Ascending;
    PageIs(log, at, c);
    PageBounds(log, at, c);
    var ids := Ids(log, at, c, v);
    SkipsAre(log, at, c, v, ids);
    ReadSplits(log, at, c, v, |ids|);
    AsksAre(log, c.published, Until(c), v, Published);
    var live := LiveIds(log, c, v);
    if Lives(c.ticks) > 0 {
      assert c.published in live;
      assert PageEnd(log, at, c) < c.logged ==> Skips(log, at, c, v, |ids|, PageEnd(log, at, c));
    } else {
      NoAsks(log, c.published, v, Published);
    }
  }

  /** A replay returns only rows later than the one it starts from. */
  lemma ReplayIsLater(log: seq<Row>, logged: nat, horizon: int, at: nat, j: nat)
    requires Ascending(log) && j <= at < logged <= |log|
    ensures log[j] !in ReplaySince(log[..logged], horizon, log[at].id)
  {
    hide ReplaySince, PageStart, PageEnd;
    var c := Connection(logged, horizon, 0, [], 0);
    PageIs(log, at, c);
    var s := PageStart(log, at, c);
    assert s > at by { PageIsAfter(log, at, c); }
    forall i | s <= i < PageEnd(log, at, c) ensures log[i] != log[j] {
      assert log[j].id != log[i].id;
    }
  }

  lemma PageIsAfter(log: seq<Row>, at: nat, c: Connection)
    requires at < c.logged <= |log|
    ensures at < PageStart(log, at, c)
  {
  }

  /** So whatever a connection passes over stays lost, from whichever later row the subscriber goes on. */
  lemma LostForGood(log: seq<Row>, at: nat, read: seq<nat>, v: View, j: nat, from: nat, logged: nat, horizon: int)
    requires Ascending(log) && PassedOver(log, at, read, v, j) && j < from < logged <= |log|
    ensures log[j] !in ReplaySince(log[..logged], horizon, log[from].id)
  {
    ReplayIsLater(log, logged, horizon, from, j);
  }

  function Numbered(n: nat): seq<Row> { seq(n, i requires 0 <= i < n => Row(i, i)) }

  lemma NumberedAscends(n: nat)
    ensures |Numbered(n)| == n && Ascending(Numbered(n)) && forall i :: 0 <= i < n ==> Numbered(n)[i] == Row(i, i)
  {
  }

  lemma FullPageLoses(v: View)
    requires forall row, f :: Passes(v, f, row)
    ensures var n := REPLAY_PAGE + 2;
            var log, c := Numbered(n + 1), Connection(n, -1, n, [Live], 0);
            && Ascending(log) && Possible(log, 0, c)
            && Last(0, Ids(log, 0, c, v)) == n && PassedOver(log, 0, Ids(log, 0, c, v), v, n - 1)
  {
    var n := REPLAY_PAGE + 2;
    var log, c := Numbered(n + 1), Connection(n, -1, n, [Live], 0);
    NumberedAscends(n + 1);
    hide Asks, Passes, Numbered, Ascending, PassedOver;
    assert Lives([Live]) == 1 by { assert [Live][1..] == []; }
    assert PageStart(log, 0, c) == 1 && PageEnd(log, 0, c) == n - 1;
    hide PageStart, PageEnd;
    LiveRowIsRead(log, n, v);
    var ids := Ids(log, 0, c, v);
    ReadSplits(log, 0, c, v, |ids|);
    SkipsExactly(log, 0, c, v, |ids|, n - 1);
    assert ids[..|ids|] == ids;
  }

  /**
    The run in which it fails: more events missed than a page holds and one more published after the subscription. The
    reader gets a page of them and the new one, and the one after the page is passed over.
   */
  lemma PageLimitLoses(v: View)
    requires forall row, f :: Passes(v, f, row)
    ensures var n := 502;
            var log, c := Numbered(n + 1), Connection(n, -1, n, [Live], 0);
            && Ascending(log) && Possible(log, 0, c)
            && Last(0, Ids(log, 0, c, v)) == n && PassedOver(log, 0, Ids(log, 0, c, v), v, n - 1)
  {
    hide *;
    FullPageLoses(v);
    PageOf500();
  }

  lemma PageOf500()
    ensures REPLAY_PAGE == 500
  {
  }

  lemma {:induction false} LiveRowIsRead(log: seq<Row>, p: nat, v: View)
    requires p < |log| && Asked(v, log[p])
    ensures Asks(log, p, p + 1, v, Published) == [p]
  {
    NoAsks(log, p, v, Published);
  }

  // ----- Rows whose stored form does not pass -----

  /** A subscriber to one message: the row of a mail provider's report names it as published, but not as stored. */
  const ONE_MESSAGE := View({}, body => body == "{7}", row => Sse.Event("1", "email.delivered", "{}"),
                            row => Sse.Event("1", "email.delivered", "{7}"))

  /**
    The run in which it is lost: one report missed, within the horizon and on the page, and another published after the
    subscription. Only the second is written, and no later replay returns the first.
   */
  lemma StoredFormLoses(v: View, logged: nat, horizon: int)
    requires (forall row :: Asked(v, row) && !Passes(v, Stored, row)) && 2 < logged <= 3
    ensures var log, c := Numbered(3), Connection(2, -1, 2, [Live], 0);
            && Ascending(log) && Possible(log, 0, c) && PageStart(log, 0, c) == 1 && PageEnd(log, 0, c) == 2
            && Written(log, 0, c, v) == [Copy(Published, 2)] && PassedOver(log, 0, Ids(log, 0, c, v), v, 1)
            && log[1] !in ReplaySince(log[..logged], horizon, log[2].id)
  {
    var log, c := Numbered(3), Connection(2, -1, 2, [Live], 0);
    NumberedAscends(3);
    hide Passes, Numbered, Ascending;
    assert Lives([Live]) == 1 by { assert [Live][1..] == []; }
    assert PageStart(log, 0, c) == 1 && PageEnd(log, 0, c) == 2;
    hide PageStart, PageEnd, PassedOver, Written, Asks, ReplaySince;
    StoredRowIsDropped(log, 1, v);
    LiveRowIsRead(log, 2, v);
    OneIsWritten(log, c, v, 2);
    OneIsPassedOver(log, v);
    ReplayIsLater(log, logged, horizon, 2, 1);
  }

  lemma OneIsWritten(log: seq<Row>, c: Connection, v: View, p: nat)
    requires 0 < c.logged <= |log| && Until(c) <= |log| && PageIds(log, 0, c, v) == [] && LiveIds(log, c, v) == [p]
    ensures Written(log, 0, c, v) == [Copy(Published, p)] && Ids(log, 0, c, v) == [p]
  {
    hide PageIds, LiveIds;
    assert Copies([], Stored) + Copies([p], Published) == [Copy(Published, p)];
  }

  lemma OneIsPassedOver(log: seq<Row>, v: View)
    requires |log| == 3 && Asked(v, log[1])
    ensures PassedOver(log, 0, [2], v, 1)
  {
    hide Asked;
    assert 2 in [2];
  }

  lemma {:induction false} StoredRowIsDropped(log: seq<Row>, p: nat, v: View)
    requires p < |log| && !Passes(v, Stored, log[p])
    ensures Asks(log, p, p + 1, v, Stored) == []
  {
    NoAsks(log, p, v, Stored);
  }

  lemma OneMessageLosesReports()
    ensures forall row :: Asked(ONE_MESSAGE, row) && !Passes(ONE_MESSAGE, Stored, row)
  {
  }
}
