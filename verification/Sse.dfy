/**
  The live event stream: one writer of server-sent events (section 9.2 of the WHATWG HTML Standard)
  and two readers of it. The Go client reads lines; the JavaScript client and the console cut a growing buffer
  at blank lines. A reader yields the JSON text of an event, standing for the value parsed from it.
 */
module Sse {
  import opened Text

  datatype Item = Event(id: string, kind: string, body: string) | Ping

  // ----- The writer -----

  function IdLine(it: Item): string
    requires it.Event?
  {
    "id: " + it.id
  }

  function EventLine(it: Item): string
    requires it.Event?
  {
    "event: " + it.kind
  }

  function DataLine(it: Item): string
    requires it.Event?
  {
    "data: " + it.body
  }

  function Frame(it: Item): string {
    match it
    case Event(_, _, _) => IdLine(it) + "\n" + EventLine(it) + "\n" + DataLine(it) + "\n\n"
    case Ping => ": ping\n\n"
  }

  function Wire(items: seq<Item>): string {
    if items == [] then "" else Frame(items[0]) + Wire(items[1..])
  }

  function Bodies(items: seq<Item>): seq<string> {
    if items == [] then [] else (if items[0].Event? then [items[0].body] else []) + Bodies(items[1..])
  }

  /** Pings always go out; an event only if its type is asked for, if any are, and its body passes the message filter. */
  predicate Wanted(it: Item, types: set<string>, aboutEmail: string -> bool) {
    it.Ping? || ((types == {} || it.kind in types) && aboutEmail(it.body))
  }

  function Selected(items: seq<Item>, types: set<string>, aboutEmail: string -> bool): seq<Item> {
    if items == [] then []
    else
      var last := items[|items| - 1];
      Selected(items[..|items| - 1], types, aboutEmail) + if Wanted(last, types, aboutEmail) then [last] else []
  }

  lemma {:induction false} WireAppend(items: seq<Item>, it: Item)
    ensures Wire(items + [it]) == Wire(items) + Frame(it)
  {
    hide Frame;
    if items == [] {
      assert [it][1..] == [] && [] + [it] == [it];
    } else {
      TailOfSum(items, [it]);
      WireAppend(items[1..], it);
      Regroup(Frame(items[0]), Wire(items[1..]), Frame(it));
    }
  }

  /** The response of one stream: replayed events, then live ones and heartbeats as they come. */
  method StreamEmailEvents(items: seq<Item>, types: set<string>, aboutEmail: string -> bool) returns (sent: string)
    ensures sent == Wire(Selected(items, types, aboutEmail))
  {
    sent := "";
    for i := 0 to |items|
      invariant sent == Wire(Selected(items[..i], types, aboutEmail))
    {
      assert items[..i + 1][..i] == items[..i];
      ghost var before := Selected(items[..i], types, aboutEmail);
      match items[i] {
        case Ping =>
          sent := sent + ": ping\n\n";
          WireAppend(before, items[i]);
        case Event(id, kind, body) =>
          if (types == {} || kind in types) && aboutEmail(body) {
            sent := sent + ("id: " + id + "\n" + ("event: " + kind) + "\n" + ("data: " + body) + "\n\n");
            WireAppend(before, items[i]);
          } else {
            assert before + [] == before;
          }
      }
    }
    assert items[..|items|] == items;
  }

  /** A one-line JSON object: accepted by the JSON parser, which accepts no proper prefix of it. */
  ghost predicate GoodBody(json: string -> bool, b: string) {
    && b != "" && b[0] == '{' && b[|b| - 1] == '}' && '\n' !in b
    && json(b) && forall n :: 0 <= n < |b| ==> !json(b[..n])
  }

  ghost predicate GoodItem(json: string -> bool, it: Item) {
    it.Event? ==> '\n' !in it.id && '\n' !in it.kind && GoodBody(json, it.body)
  }

  ghost predicate GoodItems(json: string -> bool, items: seq<Item>) {
    forall i :: 0 <= i < |items| ==> GoodItem(json, items[i])
  }

  // ----- The line reader (Go) -----

  function DropCR(line: string): string {
    if line != "" && line[|line| - 1] == '\r' then line[..|line| - 1] else line
  }

  /** The tokens of a line scanner: a last line without newline counts unless it is empty. */
  function ScanLines(text: string): seq<string> {
    var i := Index(text, "\n");
    if text == "" then []
    else if i < 0 then [DropCR(text)]
    else [DropCR(text[..i])] + ScanLines(text[i + 1..])
  }

  function Flush(json: string -> bool, data: seq<string>): seq<string> {
    if data != [] && json(Join(data, "\n")) then [Join(data, "\n")] else []
  }

  function DataOf(line: string): string
    requires "data:" <= line
  {
    if " " <= line[5..] then line[6..] else line[5..]
  }

  function ReadLines(json: string -> bool, lines: seq<string>, data: seq<string>): seq<string> {
    if lines == [] then Flush(json, data)
    else if lines[0] == "" then Flush(json, data) + ReadLines(json, lines[1..], [])
    else if ":" <= lines[0] then ReadLines(json, lines[1..], data)
    else if "data:" <= lines[0] then ReadLines(json, lines[1..], data + [DataOf(lines[0])])
    else ReadLines(json, lines[1..], data)
  }

  function GoEvents(json: string -> bool, text: string): seq<string> {
    ReadLines(json, ScanLines(text), [])
  }

  method ReadSSE(json: string -> bool, text: string) returns (out: seq<string>)
    ensures out == GoEvents(json, text)
  {
    var lines := ScanLines(text);
    var dataLines: seq<string> := [];
    out := [];
    for i := 0 to |lines|
      invariant GoEvents(json, text) == out + ReadLines(json, lines[i..], dataLines)
    {
      var line := lines[i];
      assert lines[i..][0] == line && lines[i..][1..] == lines[i + 1..];
      if line == "" {
        out := out + Flush(json, dataLines);
        dataLines := [];
        continue;
      }
      if ":" <= line {
        continue;
      }
      if "data:" <= line {
        dataLines := dataLines + [DataOf(line)];
      }
    }
    out := out + Flush(json, dataLines);
  }

  // ----- The buffer reader (JavaScript client and console) -----

  /** The text cut at its blank lines, and the unfinished tail. */
  function Frames(text: string): (r: (seq<string>, string))
    decreases |text|
  {
    var sep := Index(text, "\n\n");
    if sep < 0 then ([], text)
    else
      ([text[..sep]] + Frames(text[sep + 2..]).0, Frames(text[sep + 2..]).1)
  }

  function FrameData(lines: seq<string>, data: string): string {
    if lines == [] then data
    else if ":" <= lines[0] || TrimSpace(lines[0]) == "" then FrameData(lines[1..], data)
    else if "data:" <= lines[0] then
      FrameData(lines[1..], data + (if data != "" then "\n" else "") + TrimLeft(lines[0][5..]))
    else FrameData(lines[1..], data)
  }

  function ParsedFrame(json: string -> bool, raw: string): seq<string> {
    var data := FrameData(Split(raw, '\n'), "");
    if data != "" && json(data) then [data] else []
  }

  function Parsed(json: string -> bool, frames: seq<string>): seq<string> {
    if frames == [] then [] else ParsedFrame(json, frames[0]) + Parsed(json, frames[1..])
  }

  function JsEvents(json: string -> bool, text: string): seq<string> {
    Parsed(json, Frames(text).0)
  }

  method ParseSSEData(json: string -> bool, raw: string) returns (ev: Option<string>)
    ensures ParsedFrame(json, raw) == if ev.Some? then [ev.value] else []
  {
    var lines, data := Split(raw, '\n'), "";
    for i := 0 to |lines|
      invariant FrameData(lines, "") == FrameData(lines[i..], data)
    {
      var line := lines[i];
      assert lines[i..][0] == line && lines[i..][1..] == lines[i + 1..];
      if ":" <= line || TrimSpace(line) == "" {
        continue;
      }
      if "data:" <= line {
        data := data + (if data != "" then "\n" else "") + TrimLeft(line[5..]);
      }
    }
    if data == "" || !json(data) {
      return None;
    }
    return Some(data);
  }

  function Concat(chunks: seq<string>): string {
    if chunks == [] then "" else Concat(chunks[..|chunks| - 1]) + chunks[|chunks| - 1]
  }

  lemma {:induction false} ParsedAppend(json: string -> bool, a: seq<string>, b: seq<string>)
    ensures Parsed(json, a + b) == Parsed(json, a) + Parsed(json, b)
  {
    if a == [] {
      assert a + b == b;
    } else {
      assert (a + b)[1..] == a[1..] + b;
      ParsedAppend(json, a[1..], b);
    }
  }

  lemma {:induction false} ParsedOne(json: string -> bool, frames: seq<string>, raw: string)
    ensures Parsed(json, frames + [raw]) == Parsed(json, frames) + ParsedFrame(json, raw)
  {
    ParsedAppend(json, frames, [raw]);
    assert [raw][1..] == [];
  }

  lemma {:induction false} FramesUnfold(text: string, sep: nat)
    requires sep == Index(text, "\n\n")
    ensures Frames(text).0 == [text[..sep]] + Frames(text[sep + 2..]).0
    ensures Frames(text).1 == Frames(text[sep + 2..]).1
  {
  }

  lemma {:induction false} FirstBlankStays(a: string, b: string, sep: nat)
    requires sep == Index(a, "\n\n")
    ensures Index(a + b, "\n\n") == sep && (a + b)[..sep] == a[..sep] && (a + b)[sep + 2..] == a[sep + 2..] + b
  {
    hide Index;
    forall j | 0 <= j < sep ensures !("\n\n" <= (a + b)[j..]) {
      assert !("\n\n" <= a[j..]);
      BlankAt(a, j);
      BlankAt(a + b, j);
    }
    assert (a + b)[sep..sep + 2] == a[sep..sep + 2];
    IndexIs(a + b, "\n\n", sep);
  }

  /** More text never changes the frames already cut: only the tail is read again. */
  lemma {:induction false} FramesAppend(a: string, b: string)
    ensures Frames(a + b).0 == Frames(a).0 + Frames(Frames(a).1 + b).0
    ensures Frames(a + b).1 == Frames(Frames(a).1 + b).1
    decreases |a|
  {
    var sep := Index(a, "\n\n");
    if sep >= 0 {
      FirstBlankStays(a, b, sep);
      FramesUnfold(a, sep);
      FramesUnfold(a + b, sep);
      FramesAppend(a[sep + 2..], b);
      Regroup([a[..sep]], Frames(a[sep + 2..]).0, Frames(Frames(a).1 + b).0);
    } else {
      assert [] + Frames(a + b).0 == Frames(a + b).0;
    }
  }

  /** The receiving loop: what it yields and keeps depends on the text alone, not on how it was chunked. */
  method StreamLoop(json: string -> bool, chunks: seq<string>) returns (events: seq<string>, buf: string)
    ensures events == JsEvents(json, Concat(chunks))
    ensures buf == Frames(Concat(chunks)).1
  {
    events, buf := [], "";
    ghost var frames: seq<string> := [];
    for i := 0 to |chunks|
      invariant Frames(Concat(chunks[..i])) == (frames, buf)
      invariant events == Parsed(json, frames)
    {
      ghost var whole := Frames(Concat(chunks[..i + 1]));
      FramesAppend(Concat(chunks[..i]), chunks[i]);
      assert chunks[..i + 1][..i] == chunks[..i];
      buf := buf + chunks[i];
      var sep := Index(buf, "\n\n");
      while sep >= 0
        invariant sep == Index(buf, "\n\n")
        invariant whole.0 == frames + Frames(buf).0 && whole.1 == Frames(buf).1
        invariant events == Parsed(json, frames)
        decreases |buf|
      {
        var raw := buf[..sep];
        FramesUnfold(buf, sep);
        Regroup(frames, [raw], Frames(buf[sep + 2..]).0);
        buf := buf[sep + 2..];
        var ev := ParseSSEData(json, raw);
        ParsedOne(json, frames, raw);
        frames := frames + [raw];
        if ev.Some? {
          events := events + [ev.value];
        }
        sep := Index(buf, "\n\n");
      }
      assert frames + [] == frames;
    }
    assert chunks[..|chunks|] == chunks;
  }

  // ----- A written frame, line by line -----

  /** No blank line inside, and none can start at the end. */
  predicate Solid(s: string) {
    s != "" && s[|s| - 1] != '\n' && forall j :: 0 <= j < |s| - 1 ==> !(s[j] == '\n' && s[j + 1] == '\n')
  }

  lemma SolidExtends(a: string, b: string)
    requires Solid(a) && b != "" && '\n' !in b
    ensures Solid(a + "\n" + b)
  {
    var s := a + "\n" + b;
    assert forall j :: |a| < j < |s| ==> s[j] == b[j - |a| - 1];
  }

  lemma BlankAt(t: string, j: nat)
    requires j <= |t|
    ensures "\n\n" <= t[j..] <==> j + 1 < |t| && t[j] == '\n' && t[j + 1] == '\n'
  {
    if j + 1 < |t| {
      assert t[j..][0] == t[j] && t[j..][1] == t[j + 1];
    }
  }

  lemma {:induction false} SolidIsOneFrame(s: string, rest: string)
    requires Solid(s)
    ensures Frames(s + "\n\n" + rest) == ([s] + Frames(rest).0, Frames(rest).1)
  {
    var t := s + "\n\n" + rest;
    forall j | 0 <= j < |s| ensures !("\n\n" <= t[j..]) {
      BlankAt(t, j);
      assert t[j] == s[j] && t[j + 1] == if j + 1 < |s| then s[j + 1] else '\n';
    }
    assert t[|s|..|s| + 2] == "\n\n";
    IndexIs(t, "\n\n", |s|);
    assert t[..|s|] == s && t[|s| + 2..] == rest;
  }

  lemma SolidCutHasNoFrame(s: string, c: nat)
    requires Solid(s) && c < |s| + 2
    ensures Frames((s + "\n\n")[..c]) == ([], (s + "\n\n")[..c])
  {
    var cut := (s + "\n\n")[..c];
    forall j | 0 <= j <= |cut| ensures !("\n\n" <= cut[j..]) {
      BlankAt(cut, j);
      if j + 1 < c {
        assert cut[j] == s[j] && cut[j + 1] == if j + 1 < |s| then s[j + 1] else '\n';
      }
    }
    IndexAbsent(cut, "\n\n");
  }

  function Core(it: Item): string {
    match it
    case Event(_, _, _) => IdLine(it) + "\n" + EventLine(it) + "\n" + DataLine(it)
    case Ping => ": ping"
  }

  lemma FrameIsCore(json: string -> bool, it: Item)
    requires GoodItem(json, it)
    ensures Frame(it) == Core(it) + "\n\n" && Solid(Core(it))
  {
    match it
    case Event(id, kind, body) =>
      SolidExtends(IdLine(it), EventLine(it));
      SolidExtends(IdLine(it) + "\n" + EventLine(it), DataLine(it));
    case Ping =>
  }

  lemma ThreeLines(it: Item)
    requires it.Event? && '\n' !in it.id && '\n' !in it.kind && '\n' !in it.body
    ensures Split(Core(it), '\n') == [IdLine(it), EventLine(it), DataLine(it)]
  {
    var l1, l2, l3 := IdLine(it), EventLine(it), DataLine(it);
    assert Core(it) == l1 + ['\n'] + (l2 + ['\n'] + l3);
    SplitCons(l1, '\n', l2 + ['\n'] + l3);
    SplitCons(l2, '\n', l3);
    SplitFree(l3, '\n');
  }

  lemma {:induction false} FrameDataSkips(line: string, rest: seq<string>, data: string)
    requires line != "" && line[0] != 'd'
    ensures FrameData([line] + rest, data) == FrameData(rest, data)
  {
    assert ([line] + rest)[1..] == rest;
  }

  lemma FrameDataTakes(body: string)
    requires body != "" && body[0] == '{'
    ensures FrameData(["data: " + body], "") == body
  {
    var line := "data: " + body;
    assert line[5..] == " " + body && (" " + body)[1..] == body;
    assert TrimLeft(" " + body) == TrimLeft(body) == body;
    NotBlank(line);
    assert [line][1..] == [];
  }

  lemma FrameYieldsBody(json: string -> bool, it: Item)
    requires GoodItem(json, it)
    ensures ParsedFrame(json, Core(it)) == Bodies([it])
  {
    match it
    case Event(id, kind, body) =>
      ThreeLines(it);
      FrameDataSkips(IdLine(it), [EventLine(it), DataLine(it)], "");
      FrameDataSkips(EventLine(it), [DataLine(it)], "");
      FrameDataTakes(body);
      assert [IdLine(it), EventLine(it), DataLine(it)] == [IdLine(it)] + [EventLine(it), DataLine(it)];
      assert [EventLine(it), DataLine(it)] == [EventLine(it)] + [DataLine(it)];
      BodiesOfOne(it, []);
    case Ping =>
      SplitFree(": ping", '\n');
      FrameDataSkips(": ping", [], "");
  }

  lemma NotBlank(line: string)
    requires line != "" && !IsSpace(line[0])
    ensures TrimSpace(line) != ""
  {
    TrimRightKeepsHead(line);
  }

  lemma {:induction false} TrimRightKeepsHead(line: string)
    requires line != "" && !IsSpace(line[0])
    ensures TrimRight(line) != ""
  {
    if IsSpace(line[|line| - 1]) { TrimRightKeepsHead(line[..|line| - 1]); }
  }

  lemma {:induction false} BodiesOfOne(it: Item, rest: seq<Item>)
    ensures Bodies([it] + rest) == Bodies([it]) + Bodies(rest)
  {
    assert ([it] + rest)[1..] == rest && [it][1..] == [];
  }

  lemma JsReadsFrame(json: string -> bool, it: Item, rest: string)
    requires GoodItem(json, it)
    ensures JsEvents(json, Frame(it) + rest) == Bodies([it]) + JsEvents(json, rest)
  {
    FrameIsCore(json, it);
    SolidIsOneFrame(Core(it), rest);
    FrameYieldsBody(json, it);
    var frames := [Core(it)] + Frames(rest).0;
    assert frames[1..] == Frames(rest).0;
  }

  lemma JsWaitsForFrame(json: string -> bool, it: Item, c: nat)
    requires GoodItem(json, it) && c < |Frame(it)|
    ensures JsEvents(json, Frame(it)[..c]) == []
  {
    FrameIsCore(json, it);
    SolidCutHasNoFrame(Core(it), c);
  }

  // ----- The same frame through the line scanner -----

  lemma {:induction false} ScanCons(line: string, rest: string)
    requires '\n' !in line
    ensures ScanLines(line + "\n" + rest) == [DropCR(line)] + ScanLines(rest)
  {
    var s := line + "\n" + rest;
    assert s[|line|..|line| + 1] == "\n";
    forall j | 0 <= j < |line| ensures !("\n" <= s[j..]) {
      assert s[j..][0] == line[j];
    }
    IndexIs(s, "\n", |line|);
    assert s[..|line|] == line && s[|line| + 1..] == rest;
  }

  lemma {:induction false} ScanLast(line: string)
    requires '\n' !in line
    ensures ScanLines(line) == if line == "" then [] else [DropCR(line)]
  {
    forall j | 0 <= j <= |line| ensures !("\n" <= line[j..]) {
      assert j < |line| ==> line[j..][0] == line[j];
    }
    IndexAbsent(line, "\n");
  }

  /** A line the Go reader passes over, even when cut short. */
  predicate Dull(line: string) {
    line != "" && line[0] != 'd' && line[0] != '\r' && '\n' !in line
  }

  lemma {:induction false} DullIsSkipped(json: string -> bool, line: string, rest: seq<string>, data: seq<string>)
    requires Dull(line)
    ensures ReadLines(json, [DropCR(line)] + rest, data) == ReadLines(json, rest, data)
  {
    assert DropCR(line) != "" && DropCR(line)[0] == line[0];
    assert ([DropCR(line)] + rest)[1..] == rest;
  }

  lemma DullLine(json: string -> bool, line: string, rest: string)
    requires Dull(line)
    ensures GoEvents(json, line + "\n" + rest) == GoEvents(json, rest)
  {
    ScanCons(line, rest);
    DullIsSkipped(json, line, ScanLines(rest), []);
  }

  lemma DullLineCut(json: string -> bool, line: string, c: nat)
    requires Dull(line) && c <= |line|
    ensures GoEvents(json, line[..c]) == []
  {
    var cut := line[..c];
    ScanLast(cut);
    if c > 0 {
      DullIsSkipped(json, cut, [], []);
      assert [DropCR(cut)] + [] == [DropCR(cut)];
    }
  }

  lemma {:induction false} DataLineRead(json: string -> bool, body: string, rest: seq<string>)
    requires GoodBody(json, body)
    ensures DropCR("data: " + body) == "data: " + body
    ensures ReadLines(json, ["data: " + body] + rest, []) == ReadLines(json, rest, [body])
    ensures Flush(json, [body]) == [body]
  {
    var line := "data: " + body;
    assert line[|line| - 1] == body[|body| - 1];
    assert line[0] == 'd' && !(":" <= line) && "data:" <= line;
    assert ([line] + rest)[1..] == rest;
    assert line[5..] == " " + body && line[6..] == body;
    assert [] + [body] == [body];
  }

  lemma ReadOneLine(json: string -> bool, line: string)
    requires line != ""
    ensures ReadLines(json, [line], []) == if "data:" <= line then Flush(json, [DataOf(line)]) else []
  {
    assert [line][1..] == [];
    assert "data:" <= line ==> line[0] == "data:"[0] == 'd';
    if "data:" <= line {
      assert [] + [DataOf(line)] == [DataOf(line)];
    }
  }

  lemma DataLineCut(json: string -> bool, body: string, c: nat)
    requires GoodBody(json, body) && c <= |"data: " + body|
    ensures GoEvents(json, ("data: " + body)[..c]) == if c == |"data: " + body| then [body] else []
  {
    var line := "data: " + body;
    var cut := line[..c];
    ScanLast(cut);
    if c == |line| {
      assert cut == line;
      DataLineRead(json, body, []);
      assert [line] + [] == [line];
    } else if c > 0 {
      var piece := DropCR(cut);
      var n := |piece|;
      assert piece == line[..n] && n > 0;
      ReadOneLine(json, piece);
      if n >= 5 {
        var b := if n < 6 then 0 else n - 6;
        if n >= 6 {
          assert piece[5..][0] == ' ' && piece[6..] == body[..b];
        } else {
          assert piece[5..] == body[..b];
        }
        assert DataOf(piece) == body[..b];
      }
    }
  }

  /** The data line with the blank line that ends the frame. */
  lemma GoReadsData(json: string -> bool, body: string, rest: string)
    requires GoodBody(json, body)
    ensures GoEvents(json, "data: " + body + "\n" + ("" + "\n" + rest)) == [body] + GoEvents(json, rest)
    ensures GoEvents(json, "data: " + body + "\n") == [body]
  {
    var l := "data: " + body;
    assert '\n' !in l && DropCR("") == "";
    hide DropCR, GoodBody, Flush;
    ScanCons(l, "" + "\n" + rest);
    ScanCons("", rest);
    DataLineRead(json, body, [""] + ScanLines(rest));
    assert ([""] + ScanLines(rest))[1..] == ScanLines(rest);
    ScanCons(l, "");
    assert l + "\n" + "" == l + "\n";
    DataLineRead(json, body, []);
  }

  lemma GoReadsEvent(json: string -> bool, it: Item, rest: string)
    requires GoodItem(json, it) && it.Event?
    ensures GoEvents(json, Frame(it) + rest) == [it.body] + GoEvents(json, rest)
    ensures GoEvents(json, DataLine(it) + "\n") == [it.body]
  {
    hide GoEvents, GoodBody, Frame, Dull;
    var l1, l2 := IdLine(it), EventLine(it);
    var tail := DataLine(it) + "\n" + ("" + "\n" + rest);
    EventFrame(json, it);
    assert Frame(it) + rest == l1 + "\n" + (l2 + "\n" + tail);
    DullLine(json, l1, l2 + "\n" + tail);
    DullLine(json, l2, tail);
    GoReadsData(json, it.body, rest);
  }

  /** A cut either falls in the first line or leaves it whole. */
  lemma CutAfterLine(l: string, rest: string, c: nat)
    requires c <= |l| + 1 + |rest|
    ensures (l + "\n" + rest)[..c] == if c <= |l| then l[..c] else l + "\n" + rest[..c - |l| - 1]
  {
  }

  lemma GoSkipsCut(json: string -> bool, l: string, rest: string, c: nat)
    requires Dull(l) && c <= |l| + 1 + |rest|
    ensures GoEvents(json, (l + "\n" + rest)[..c]) == if c <= |l| then [] else GoEvents(json, rest[..c - |l| - 1])
  {
    CutAfterLine(l, rest, c);
    if c <= |l| { DullLineCut(json, l, c); } else { DullLine(json, l, rest[..c - |l| - 1]); }
  }

  lemma GoReadsTwoLinesCut(json: string -> bool, it: Item, c: nat)
    requires GoodItem(json, it) && it.Event? && c <= |EventLine(it)| + |DataLine(it)| + 2
    ensures GoEvents(json, (EventLine(it) + "\n" + (DataLine(it) + "\n"))[..c])
         == if |EventLine(it)| + |DataLine(it)| + 1 <= c then [it.body] else []
  {
    hide GoEvents, GoodItem, Dull;
    var l2 := EventLine(it);
    EventFrame(json, it);
    GoSkipsCut(json, l2, DataLine(it) + "\n", c);
    if c > |l2| {
      GoReadsDataCut(json, it, c - |l2| - 1);
    }
  }

  lemma GoReadsEventCut(json: string -> bool, it: Item, c: nat)
    requires GoodItem(json, it) && it.Event? && c < |Frame(it)|
    ensures GoEvents(json, Frame(it)[..c]) == if |Frame(it)| - 2 <= c then [it.body] else []
  {
    hide GoEvents, GoodItem, Dull;
    var l1, rest := IdLine(it), EventLine(it) + "\n" + (DataLine(it) + "\n");
    EventFrame(json, it);
    assert Frame(it)[..c] == (l1 + "\n" + rest)[..c];
    GoSkipsCut(json, l1, rest, c);
    if c > |l1| {
      GoReadsTwoLinesCut(json, it, c - |l1| - 1);
    }
  }

  lemma EventFrame(json: string -> bool, it: Item)
    requires GoodItem(json, it) && it.Event?
    ensures Frame(it) == IdLine(it) + "\n" + (EventLine(it) + "\n" + (DataLine(it) + "\n")) + "\n"
    ensures Dull(IdLine(it)) && Dull(EventLine(it))
  {
    FrameIsCore(json, it);
  }

  lemma GoReadsDataCut(json: string -> bool, it: Item, c: nat)
    requires GoodItem(json, it) && it.Event? && c <= |DataLine(it)| + 1
    ensures GoEvents(json, (DataLine(it) + "\n")[..c]) == if |DataLine(it)| <= c then [it.body] else []
  {
    var l := DataLine(it);
    if c <= |l| {
      assert (l + "\n")[..c] == l[..c];
      DataLineCut(json, it.body, c);
    } else {
      assert (l + "\n")[..c] == l + "\n";
      GoReadsEvent(json, it, "");
    }
  }

  lemma GoReadsPing(json: string -> bool, rest: string)
    ensures GoEvents(json, Frame(Ping) + rest) == GoEvents(json, rest)
  {
    var l := ": ping";
    assert Frame(Ping) + rest == l + "\n" + ("" + "\n" + rest);
    DullLine(json, l, "" + "\n" + rest);
    ScanCons("", rest);
    assert ([""] + ScanLines(rest))[1..] == ScanLines(rest);
  }

  lemma GoReadsPingCut(json: string -> bool, c: nat)
    requires c < |Frame(Ping)|
    ensures GoEvents(json, Frame(Ping)[..c]) == []
  {
    var l := ": ping";
    if c <= |l| {
      assert Frame(Ping)[..c] == l[..c];
      DullLineCut(json, l, c);
    } else {
      assert Frame(Ping)[..c] == l + "\n" + "";
      DullLine(json, l, "");
    }
  }

  lemma GoReadsFrame(json: string -> bool, it: Item, rest: string)
    requires GoodItem(json, it)
    ensures GoEvents(json, Frame(it) + rest) == Bodies([it]) + GoEvents(json, rest)
  {
    hide GoEvents, GoodBody, Frame;
    BodiesOfOne(it, []);
    if it.Event? { GoReadsEvent(json, it, rest); } else { GoReadsPing(json, rest); }
  }

  // ----- Whole streams, cut anywhere -----

  /** Events whose frame, blank line included, lies within the first `c` characters. */
  function Complete(items: seq<Item>, c: nat): nat {
    if items == [] || c < |Frame(items[0])| then 0
    else |Bodies([items[0]])| + Complete(items[1..], c - |Frame(items[0])|)
  }

  /** One when the cut takes a whole body but not the blank line after it. */
  function Pending(items: seq<Item>, c: nat): nat {
    if items == [] then 0
    else if c < |Frame(items[0])| then (if items[0].Event? && |Frame(items[0])| - 2 <= c then 1 else 0)
    else Pending(items[1..], c - |Frame(items[0])|)
  }

  /** After `text` the JavaScript reader has yielded n of the bodies and the Go reader n + ahead, in order. */
  ghost predicate ReadTo(json: string -> bool, text: string, bodies: seq<string>, n: nat, ahead: nat) {
    && ahead <= 1 && n + ahead <= |bodies|
    && JsEvents(json, text) == bodies[..n]
    && GoEvents(json, text) == bodies[..n + ahead]
  }

  lemma EmptyStream(json: string -> bool)
    ensures GoEvents(json, "") == [] && JsEvents(json, "") == []
  {
  }

  lemma {:induction false} ReadInside(json: string -> bool, it: Item, bodies: seq<string>, c: nat)
    requires GoodItem(json, it) && c < |Frame(it)|
    ensures ReadTo(json, Frame(it)[..c], Bodies([it]) + bodies, 0, Pending([it], c))
  {
    JsWaitsForFrame(json, it, c);
    GoReadsFrameCut(json, it, c);
    BodiesSplit([it]);
  }

  lemma ReadMore(json: string -> bool, it: Item, tail: string, bodies: seq<string>, n: nat, ahead: nat)
    requires GoodItem(json, it) && ReadTo(json, tail, bodies, n, ahead)
    ensures ReadTo(json, Frame(it) + tail, Bodies([it]) + bodies, |Bodies([it])| + n, ahead)
  {
    JsReadsFrame(json, it, tail);
    GoReadsFrame(json, it, tail);
    TakeMore(Bodies([it]), bodies, n);
    TakeMore(Bodies([it]), bodies, n + ahead);
  }

  /**
    Cut the written stream at any character: the JavaScript reader has yielded exactly the events whose frames
    are complete, in order, and the Go reader, which also flushes at the end of input, at most one more.
   */
  lemma {:induction false} CutStream(json: string -> bool, items: seq<Item>, c: nat)
    requires GoodItems(json, items) && c <= |Wire(items)|
    ensures ReadTo(json, Wire(items)[..c], Bodies(items), Complete(items, c), Pending(items, c))
  {
    hide GoEvents, JsEvents, GoodItem, Frame;
    if items == [] {
      assert Wire(items)[..c] == "";
      EmptyStream(json);
    } else {
      var it, rest, f := items[0], items[1..], |Frame(items[0])|;
      CutWire(items, c);
      BodiesSplit(items);
      if c < f {
        ReadInside(json, it, Bodies(rest), c);
      } else {
        CutStream(json, rest, c - f);
        ReadMore(json, it, Wire(rest)[..c - f], Bodies(rest), Complete(rest, c - f), Pending(rest, c - f));
      }
    }
  }

  lemma {:induction false} CutWire(items: seq<Item>, c: nat)
    requires items != [] && c <= |Wire(items)|
    ensures var f := Frame(items[0]);
            Wire(items)[..c] == if c < |f| then f[..c] else f + Wire(items[1..])[..c - |f|]
  {
  }

  lemma {:induction false} BodiesSplit(items: seq<Item>)
    requires items != []
    ensures Bodies(items) == Bodies([items[0]]) + Bodies(items[1..])
    ensures |Bodies([items[0]])| == if items[0].Event? then 1 else 0
  {
    BodiesOfOne(items[0], items[1..]);
    assert items == [items[0]] + items[1..] && [items[0]][1..] == [];
  }

  lemma {:induction false} GoReadsFrameCut(json: string -> bool, it: Item, c: nat)
    requires GoodItem(json, it) && c < |Frame(it)|
    ensures GoEvents(json, Frame(it)[..c]) == Bodies([it])[..Pending([it], c)]
  {
    BodiesOfOne(it, []);
    if it.Event? { GoReadsEventCut(json, it, c); } else { GoReadsPingCut(json, c); }
  }

  lemma TakeMore<T>(a: seq<T>, b: seq<T>, n: nat)
    requires n <= |b|
    ensures a + b[..n] == (a + b)[..|a| + n]
  {
  }

  lemma {:induction false} AllComplete(items: seq<Item>)
    ensures Complete(items, |Wire(items)|) == |Bodies(items)| && Pending(items, |Wire(items)|) == 0
  {
    if items != [] {
      AllComplete(items[1..]);
      BodiesOfOne(items[0], items[1..]);
      assert items == [items[0]] + items[1..];
    }
  }

  lemma {:induction false} SelectedAreGood(json: string -> bool, items: seq<Item>, types: set<string>, aboutEmail: string -> bool)
    requires GoodItems(json, items)
    ensures GoodItems(json, Selected(items, types, aboutEmail))
  {
    if items != [] {
      SelectedAreGood(json, items[..|items| - 1], types, aboutEmail);
    }
  }

  /** Read to the end, both readers return exactly the written bodies in order. */
  lemma {:induction false} WholeStream(json: string -> bool, items: seq<Item>)
    requires GoodItems(json, items)
    ensures JsEvents(json, Wire(items)) == Bodies(items)
    ensures GoEvents(json, Wire(items)) == Bodies(items)
  {
    CutStream(json, items, |Wire(items)|);
    AllComplete(items);
    assert Wire(items)[..|Wire(items)|] == Wire(items);
  }

  /** From the server's loop to the client: a subscriber receives exactly the events it asked for, in order, by either reader. */
  lemma {:induction false} SubscriberGetsSelection(json: string -> bool, items: seq<Item>, types: set<string>, aboutEmail: string -> bool)
    requires GoodItems(json, items)
    ensures var sent := Wire(Selected(items, types, aboutEmail));
            && JsEvents(json, sent) == Bodies(Selected(items, types, aboutEmail))
            && GoEvents(json, sent) == Bodies(Selected(items, types, aboutEmail))
  {
    SelectedAreGood(json, items, types, aboutEmail);
    WholeStream(json, Selected(items, types, aboutEmail));
  }

  // ----- Which events go out -----

  ghost predicate GoesOut(it: Item, types: set<string>, aboutEmail: string -> bool) {
    match it
    case Ping => true
    case Event(_, kind, body) => (types == {} || kind in types) && aboutEmail(body)
  }

  /** These positions, in order, and no others go out. */
  ghost predicate Names(items: seq<Item>, types: set<string>, aboutEmail: string -> bool, at: seq<nat>) {
    && (forall k :: 0 <= k < |at| ==> at[k] < |items| && GoesOut(items[at[k]], types, aboutEmail))
    && (forall j, k :: 0 <= j < k < |at| ==> at[j] < at[k])
    && (forall i :: 0 <= i < |items| && GoesOut(items[i], types, aboutEmail) ==> i in at)
  }

  function Picked(items: seq<Item>, at: seq<nat>): seq<Item> {
    seq(|at|, k requires 0 <= k < |at| => if at[k] < |items| then items[at[k]] else Ping)
  }

  lemma NamesMore(items: seq<Item>, it: Item, types: set<string>, aboutEmail: string -> bool, at: seq<nat>)
    requires Names(items, types, aboutEmail, at)
    ensures Names(items + [it], types, aboutEmail, if GoesOut(it, types, aboutEmail) then at + [|items|] else at)
  {
    if GoesOut(it, types, aboutEmail) { LastIsNamed(items, it, types, aboutEmail, at); } else { LastIsLeftOut(items, it, types, aboutEmail, at); }
  }

  lemma LastIsLeftOut(items: seq<Item>, it: Item, types: set<string>, aboutEmail: string -> bool, at: seq<nat>)
    requires Names(items, types, aboutEmail, at) && !GoesOut(it, types, aboutEmail)
    ensures Names(items + [it], types, aboutEmail, at)
  {
    hide GoesOut;
    var all := items + [it];
    assert all[|items|] == it && forall i :: 0 <= i < |items| ==> all[i] == items[i];
  }

  lemma LastIsNamed(items: seq<Item>, it: Item, types: set<string>, aboutEmail: string -> bool, at: seq<nat>)
    requires Names(items, types, aboutEmail, at) && GoesOut(it, types, aboutEmail)
    ensures Names(items + [it], types, aboutEmail, at + [|items|])
  {
    hide GoesOut;
    var all, more, n := items + [it], at + [|items|], |items|;
    assert all[n] == it && forall i :: 0 <= i < n ==> all[i] == items[i];
    assert more[|at|] == n && forall k :: 0 <= k < |at| ==> more[k] == at[k];
    assert n in more;
    forall i | 0 <= i < n && GoesOut(all[i], types, aboutEmail) ensures i in more {
      assert GoesOut(items[i], types, aboutEmail);
    }
  }

  lemma PickedMore(items: seq<Item>, it: Item, at: seq<nat>)
    requires forall k :: 0 <= k < |at| ==> at[k] < |items|
    ensures Picked(items + [it], at) == Picked(items, at)
    ensures Picked(items + [it], at + [|items|]) == Picked(items, at) + [it]
  {
  }

  /** The events that go out are, in order, all pings and what was asked for in type and message. */
  lemma {:induction false} SelectedAre(items: seq<Item>, types: set<string>, aboutEmail: string -> bool) returns (at: seq<nat>)
    ensures Names(items, types, aboutEmail, at) && Selected(items, types, aboutEmail) == Picked(items, at)
  {
    hide Wanted, GoesOut, Names, Picked;
    if items == [] {
      at := [];
      NamesNothing(types, aboutEmail);
    } else {
      var n := |items| - 1;
      var front, last := items[..n], items[n];
      at := SelectedAre(front, types, aboutEmail);
      assert items == front + [last];
      NamesMore(front, last, types, aboutEmail, at);
      NamesFit(front, types, aboutEmail, at);
      PickedMore(front, last, at);
      WantedGoesOut(last, types, aboutEmail);
      Regroup(Picked(front, at), [], []);
      if Wanted(last, types, aboutEmail) {
        at := at + [n];
      }
    }
  }

  lemma NamesNothing(types: set<string>, aboutEmail: string -> bool)
    ensures Names([], types, aboutEmail, []) && Picked([], []) == []
  {
  }

  lemma WantedGoesOut(it: Item, types: set<string>, aboutEmail: string -> bool)
    ensures Wanted(it, types, aboutEmail) <==> GoesOut(it, types, aboutEmail)
  {
  }

  lemma NamesFit(items: seq<Item>, types: set<string>, aboutEmail: string -> bool, at: seq<nat>)
    requires Names(items, types, aboutEmail, at)
    ensures forall k :: 0 <= k < |at| ==> at[k] < |items|
  {
    hide GoesOut;
  }

  // ----- Frames of any lines -----

  /** Not blank, one line, and its data, if it is a data line, begins with what is not white space after one blank at most. */
  predicate PlainLine(l: string) {
    && TrimSpace(l) != "" && '\n' !in l && l[|l| - 1] != '\r'
    && ("data:" <= l ==> DataOf(l) != "" && TrimLeft(l[5..]) == DataOf(l))
  }

  function Datas(lines: seq<string>): seq<string> {
    if lines == [] then [] else (if "data:" <= lines[0] then [DataOf(lines[0])] else []) + Datas(lines[1..])
  }

  predicate PlainLines(lines: seq<string>) { forall i :: 0 <= i < |lines| ==> PlainLine(lines[i]) }

  lemma NotComment(l: string)
    requires "data:" <= l
    ensures !(":" <= l)
  {
    assert l[0] == "data:"[0];
  }

  lemma {:induction false} GoReadsLines(json: string -> bool, lines: seq<string>, rest: seq<string>, data: seq<string>)
    requires PlainLines(lines)
    ensures ReadLines(json, lines + ([""] + rest), data) == Flush(json, data + Datas(lines)) + ReadLines(json, rest, [])
  {
    hide Flush, DataOf, PlainLine;
    var all := lines + ([""] + rest);
    if lines == [] {
      assert all[1..] == rest && data + [] == data;
    } else {
      assert all[0] == lines[0] && all[1..] == lines[1..] + ([""] + rest);
      NotBlankLine(lines[0]);
      if "data:" <= lines[0] {
        NotComment(lines[0]);
        GoReadsLines(json, lines[1..], rest, data + [DataOf(lines[0])]);
        Regroup(data, [DataOf(lines[0])], Datas(lines[1..]));
      } else {
        GoReadsLines(json, lines[1..], rest, data);
        assert [] + Datas(lines[1..]) == Datas(lines[1..]);
      }
    }
  }

  lemma EmptyLine()
    ensures DropCR("") == ""
  {
  }

  lemma NotBlankLine(l: string)
    requires PlainLine(l)
    ensures l != "" && DropCR(l) == l && '\n' !in l
  {
  }

  lemma {:induction false} JsReadsLines(lines: seq<string>, data: string)
    requires PlainLines(lines)
    ensures FrameData(lines, data) ==
            if Datas(lines) == [] then data
            else (if data == "" then "" else data + "\n") + Join(Datas(lines), "\n")
  {
    hide TrimSpace, TrimLeft, DataOf;
    if lines != [] {
      var l, rest := lines[0], lines[1..];
      assert PlainLine(l);
      if "data:" <= l {
        NotComment(l);
        var d := data + (if data != "" then "\n" else "") + DataOf(l);
        JsReadsLines(rest, d);
        assert Datas(lines) == [DataOf(l)] + Datas(rest);
        assert ([DataOf(l)] + Datas(rest))[1..] == Datas(rest);
      } else {
        JsReadsLines(rest, data);
        assert Datas(lines) == Datas(rest);
      }
    }
  }

  lemma {:induction false} JoinUnfold(lines: seq<string>)
    requires lines != []
    ensures Join(lines, "\n") == if |lines| == 1 then lines[0] else lines[0] + "\n" + Join(lines[1..], "\n")
  {
  }

  lemma {:induction false} LinesSplit(lines: seq<string>)
    requires lines != [] && PlainLines(lines)
    ensures Split(Join(lines, "\n"), '\n') == lines && Solid(Join(lines, "\n"))
  {
    hide Split, Join, TrimSpace, DataOf, TrimLeft;
    var l, rest := lines[0], lines[1..];
    JoinUnfold(lines);
    NotBlankLine(l);
    assert PlainLine(l);
    if rest == [] {
      SplitFree(l, '\n');
      assert Solid(l);
      assert lines == [l];
    } else {
      LinesSplit(rest);
      assert l + "\n" + Join(rest, "\n") == l + ['\n'] + Join(rest, "\n");
      SplitCons(l, '\n', Join(rest, "\n"));
      assert PlainLine(rest[0]) && rest[0] == lines[1];
      NotBlankLine(rest[0]);
      SolidFollows(l, rest);
    }
  }

  lemma {:induction false} SolidFollows(l: string, rest: seq<string>)
    requires l != "" && '\n' !in l && rest != [] && rest[0] != "" && '\n' !in rest[0] && Solid(Join(rest, "\n"))
    ensures Solid(l + "\n" + Join(rest, "\n"))
  {
    var b := Join(rest, "\n");
    JoinUnfold(rest);
    assert b[0] == rest[0][0];
    hide Join;
    var s := l + "\n" + b;
    assert forall j :: 0 <= j < |l| ==> s[j] == l[j];
    assert forall j :: |l| < j < |s| ==> s[j] == b[j - |l| - 1];
  }

  lemma {:induction false} LinesScanned(lines: seq<string>, rest: string)
    requires lines != [] && PlainLines(lines)
    ensures ScanLines(Join(lines, "\n") + "\n\n" + rest) == lines + ([""] + ScanLines(rest))
  {
    hide ScanLines, Join, PlainLine, DropCR;
    EmptyLine();
    var l, more := lines[0], lines[1..];
    var tail := "" + "\n" + rest;
    JoinUnfold(lines);
    NotBlankLine(l);
    if more == [] {
      assert Join(lines, "\n") + "\n\n" + rest == l + "\n" + tail;
      ScanCons(l, tail);
      ScanCons("", rest);
      assert lines == [l];
    } else {
      var next := Join(more, "\n") + "\n\n" + rest;
      assert Join(lines, "\n") + "\n\n" + rest == l + "\n" + next;
      ScanCons(l, next);
      LinesScanned(more, rest);
      assert lines == [l] + more;
      Regroup([l], more, [""] + ScanLines(rest));
    }
  }

  /**
    Any frame of such lines, whatever fields and comments it has: both readers put its data lines together, one under the
    other, and yield them if they parse.
   */
  lemma {:induction false} AnyFrameReads(json: string -> bool, lines: seq<string>, rest: string)
    requires lines != [] && PlainLines(lines)
    ensures var text, value := Join(lines, "\n") + "\n\n" + rest, Join(Datas(lines), "\n");
            var own := if Datas(lines) != [] && json(value) then [value] else [];
            GoEvents(json, text) == own + GoEvents(json, rest) && JsEvents(json, text) == own + JsEvents(json, rest)
  {
    hide PlainLine, Frames, ReadLines, ScanLines, FrameData, Split, Solid;
    var core := Join(lines, "\n");
    LinesSplit(lines);
    LinesScanned(lines, rest);
    GoReadsLines(json, lines, ScanLines(rest), []);
    assert [] + Datas(lines) == Datas(lines);
    JsReadsLines(lines, "");
    DatasHaveText(lines);
    SolidIsOneFrame(core, rest);
    var value := Join(Datas(lines), "\n");
    assert FrameData(lines, "") == if Datas(lines) == [] then "" else value;
    assert ParsedFrame(json, core) == if Datas(lines) != [] && json(value) then [value] else [];
    var frames := [core] + Frames(rest).0;
    assert frames[0] == core && frames[1..] == Frames(rest).0;
  }

  lemma {:induction false} DatasHaveText(lines: seq<string>)
    requires PlainLines(lines)
    ensures Datas(lines) != [] ==> Join(Datas(lines), "\n") != ""
  {
    hide TrimSpace, TrimLeft, DataOf;
    if lines != [] {
      assert PlainLine(lines[0]);
      DatasHaveText(lines[1..]);
      if "data:" <= lines[0] {
        var ds := Datas(lines);
        assert ds[0] != "";
        assert |ds| > 1 ==> |Join(ds, "\n")| >= |ds[0]|;
      } else {
        assert Datas(lines) == Datas(lines[1..]);
      }
    }
  }

  // ----- Lines that end in CR LF -----

  function Crlf(lines: seq<string>): string { if lines == [] then "" else lines[0] + "\r\n" + Crlf(lines[1..]) }

  lemma {:induction false} CrlfScanned(lines: seq<string>, rest: string)
    requires PlainLines(lines)
    ensures ScanLines(Crlf(lines) + rest) == lines + ScanLines(rest)
  {
    hide ScanLines, PlainLine;
    if lines == [] {
      assert "" + rest == rest;
    } else {
      var l, more := lines[0] + "\r", lines[1..];
      NotBlankLine(lines[0]);
      assert Crlf(lines) + rest == l + "\n" + (Crlf(more) + rest);
      ScanCons(l, Crlf(more) + rest);
      assert DropCR(l) == lines[0];
      CrlfScanned(more, rest);
      assert lines == [lines[0]] + more;
      Regroup([lines[0]], more, ScanLines(rest));
    }
  }

  /** The Go reader takes such lines, which the standard allows, as it takes the others. */
  lemma {:induction false} GoReadsCrlf(json: string -> bool, lines: seq<string>, rest: string)
    requires PlainLines(lines)
    ensures var value := Join(Datas(lines), "\n");
            GoEvents(json, Crlf(lines) + "\r\n" + rest)
            == (if Datas(lines) != [] && json(value) then [value] else []) + GoEvents(json, rest)
  {
    hide PlainLines, ReadLines, ScanLines;
    var tail := "\r\n" + rest;
    Regroup(Crlf(lines), "\r\n", rest);
    CrlfScanned(lines, tail);
    assert tail == "\r" + "\n" + rest;
    ScanCons("\r", rest);
    assert DropCR("\r") == "";
    GoReadsLines(json, lines, ScanLines(rest), []);
    assert [] + Datas(lines) == Datas(lines);
  }

  /** The buffer reader never finds the end of a frame among them, so it yields nothing, however long the stream. */
  lemma {:induction false} JsMissesCrlf(json: string -> bool, text: string)
    requires forall j :: 0 < j < |text| && text[j] == '\n' ==> text[j - 1] == '\r'
    ensures Frames(text) == ([], text) && JsEvents(json, text) == []
  {
    forall j | 0 <= j <= |text| ensures !("\n\n" <= text[j..]) {
      BlankAt(text, j);
      assert j + 1 < |text| && text[j + 1] == '\n' ==> text[j] == '\r';
    }
    IndexAbsent(text, "\n\n");
  }
}
