/**
  Inbound messages: the recursive walk over a MIME tree (section 5.1 of RFC 2046) and the decoding of a
  part's transfer encoding (section 6.8 of RFC 2045). Header parsing is foreign; its results are fields here.
 */
module Mime {
  import opened Text
  import opened Base64

  // ----- Transfer encoding -----

  predicate IsBlank(c: char) { c == '\n' || c == '\r' || c == ' ' || c == '\t' }

  function Decoded(data: string, encoding: string): string {
    if encoding == "base64" then
      match Decode(Without(data, IsBlank), Std)
      case None => data
      case Some(out) => out
    else data
  }

  lemma WithoutStep(s: string, i: nat, drop: char -> bool)
    requires i < |s|
    ensures Without(s[..i + 1], drop) == Without(s[..i], drop) + if drop(s[i]) then "" else [s[i]]
  {
    WithoutAppend(s[..i], [s[i]], drop);
    assert s[..i] + [s[i]] == s[..i + 1];
    assert [s[i]][1..] == "";
  }

  lemma {:induction false} WithoutAppend(a: string, b: string, drop: char -> bool)
    ensures Without(a + b, drop) == Without(a, drop) + Without(b, drop)
  {
    if a == "" {
      assert a + b == b;
    } else {
      assert (a + b)[0] == a[0] && (a + b)[1..] == a[1..] + b;
      WithoutAppend(a[1..], b, drop);
    }
  }

  method DecodeTransfer(data: string, encoding: string) returns (out: string)
    ensures out == Decoded(data, encoding)
  {
    if encoding != "base64" {
      return data;
    }
    var trimmed := "";
    for i := 0 to |data|
      invariant trimmed == Without(data[..i], IsBlank)
    {
      WithoutStep(data, i, IsBlank);
      var b := data[i];
      if b != '\n' && b != '\r' && b != ' ' && b != '\t' {
        trimmed := trimmed + [b];
      }
    }
    assert data[..|data|] == data;
    var decoded := Decode(trimmed, Std);
    if decoded.None? {
      return data;
    }
    return decoded.value;
  }

  /** `data` is `text` with blanks put in anywhere. */
  ghost predicate Scattered(data: string, text: string) {
    if data == "" then text == ""
    else
      || (IsBlank(data[0]) && Scattered(data[1..], text))
      || (text != "" && data[0] == text[0] && Scattered(data[1..], text[1..]))
  }

  lemma {:induction false} ScatteredWithout(data: string, text: string)
    requires Scattered(data, text) && forall c :: c in text ==> !IsBlank(c)
    ensures Without(data, IsBlank) == text
  {
    if data != "" {
      if IsBlank(data[0]) && Scattered(data[1..], text) {
        ScatteredWithout(data[1..], text);
      } else {
        assert text[0] in text;
        ScatteredWithout(data[1..], text[1..]);
        assert text == [text[0]] + text[1..];
      }
    }
  }

  /** However a sender breaks and indents the padded encoding of some bytes, decoding gives the bytes. */
  lemma {:induction false} DecodesScattered(bytes: string, data: string)
    requires Bytes(bytes) && Scattered(data, Encode(bytes, Std))
    ensures Decoded(data, "base64") == bytes
  {
    EncodedChars(bytes, Std);
    ScatteredWithout(data, Encode(bytes, Std));
    RoundTrip(bytes, Std);
  }

  // ----- The tree -----

  /** The Content-Type header as it parses, with its `name` parameter. */
  datatype ContentType = Absent | Malformed | Parsed(media: string, name: string)

  /**
    The headers the walk reads: the disposition as it came, its `filename` parameter (None when it is malformed), and
    the transfer encoding. An absent text is "".
   */
  datatype Header = Header(contentType: ContentType, disposition: string, filename: Option<string>, encoding: string)

  /** A part's body can be read as subparts, as the multipart reader delivers them, or as bytes (None: read error). */
  datatype Part = Part(hdr: Header, subparts: seq<Part>, body: Option<string>)

  datatype Attachment = Attachment(filename: string, contentType: string, content: string)

  datatype Found = Found(html: string, text: string, atts: seq<Attachment>)

  const NOTHING := Found("", "", [])

  const MAX_PART := 25 * 0x10_0000

  function MediaType(h: Header): string {
    match h.contentType
    case Parsed(media, _) => media
    case _ => "text/plain"
  }

  predicate IsMultipart(p: Part) { "multipart/" <= MediaType(p.hdr) }

  function FileName(h: Header): string {
    var fromDisposition := if h.disposition != "" && h.filename.Some? then h.filename.value else "";
    var named := if fromDisposition == "" && Contains(ToLower(h.disposition), "attachment") then "attachment" else fromDisposition;
    if named != "" then named else if h.contentType.Parsed? then h.contentType.name else ""
  }

  function LeafFound(p: Part): Found {
    if p.body.None? then NOTHING
    else
      var media, filename := MediaType(p.hdr), FileName(p.hdr);
      var raw := if |p.body.value| > MAX_PART then p.body.value[..MAX_PART] else p.body.value;
      var data := Decoded(raw, ToLower(p.hdr.encoding));
      if Contains(ToLower(p.hdr.disposition), "attachment")
         || (filename != "" && !("text/" <= media) && media != "message/rfc822")
      then Found("", "", [Attachment(if filename == "" then "attachment" else filename,
                                     if media == "" then "application/octet-stream" else media, data)])
      else if "text/html" <= media then Found(data, "", [])
      else if "text/plain" <= media then Found("", data, [])
      else if filename != "" then Found("", "", [Attachment(filename, media, data)])
      else Found("", data, [])
  }

  // ----- What a leaf is for -----

  datatype Role = AsHtml | AsText | AsFile(name: string, contentType: string)

  predicate Marked(h: Header) { Contains(ToLower(h.disposition), "attachment") }

  /** The name the sender gave, in the disposition or else in the type. */
  function GivenName(h: Header): string {
    if h.disposition != "" && h.filename.Some? && h.filename.value != "" then h.filename.value
    else if Marked(h) then "attachment"
    else if h.contentType.Parsed? then h.contentType.name
    else ""
  }

  /** From the headers alone: a file when marked as one, or when it has a name and is neither HTML nor plain text. */
  function RoleOf(h: Header): Role {
    var media := MediaType(h);
    var isHtml, isPlain := "text/html" <= media, "text/plain" <= media;
    if Marked(h) || (GivenName(h) != "" && !isHtml && !isPlain)
    then AsFile(GivenName(h), if media == "" then "application/octet-stream" else media)
    else if isHtml then AsHtml
    else AsText
  }

  /** At most 25 megabytes of the body, decoded. */
  function Content(p: Part): string
    requires p.body.Some?
  {
    Decoded(if |p.body.value| > MAX_PART then p.body.value[..MAX_PART] else p.body.value, ToLower(p.hdr.encoding))
  }

  /** What a leaf shows in a role, "" when it has another or cannot be read. */
  function Shown(p: Part, role: Role): string {
    if p.body.Some? && RoleOf(p.hdr) == role then Content(p) else ""
  }

  function Files(p: Part): seq<Attachment> {
    if p.body.Some? && RoleOf(p.hdr).AsFile?
    then [Attachment(RoleOf(p.hdr).name, RoleOf(p.hdr).contentType, Content(p))]
    else []
  }

  /** The two tests for an attachment, before the types are told apart and after, come to the one test of a leaf's role. */
  lemma LeafHasItsRole(p: Part)
    ensures LeafFound(p) == Found(Shown(p, AsHtml), Shown(p, AsText), Files(p))
  {
    hide Decoded, ToLower, Contains;
    var media := MediaType(p.hdr);
    if media == "message/rfc822" {
      assert media[0] == 'm';
    }
    if "text/html" <= media {
      assert media[..5] == "text/";
    } else if "text/plain" <= media {
      assert media[..5] == "text/";
    }
  }

  /** A file has a name and a type; what is not one is HTML exactly when its type says so. */
  lemma RoleMeans(h: Header)
    ensures RoleOf(h).AsFile? <==> Marked(h) || (GivenName(h) != "" && !("text/html" <= MediaType(h)) && !("text/plain" <= MediaType(h)))
    ensures RoleOf(h).AsFile? ==> RoleOf(h).name != "" && RoleOf(h).contentType != ""
    ensures RoleOf(h).AsHtml? <==> !Marked(h) && "text/html" <= MediaType(h)
    ensures !h.contentType.Parsed? ==> RoleOf(h) == if Marked(h) then AsFile(GivenName(h), "text/plain") else AsText
    ensures h.contentType == Parsed("text/html", "") && h.disposition == "" ==> RoleOf(h) == AsHtml
    ensures h.contentType == Parsed("text/plain", "") && h.disposition == "" ==> RoleOf(h) == AsText
  {
    assert "text/plain"[5] == 'p' && "text/html"[5] == 'h';
    var low := ToLower("");
    if h.disposition == "" && Contains(low, "attachment") { ContainsChar(low, "attachment", 'a'); }
  }

  /**
    A body that is not declared to be base64 comes as it is; one that is comes decoded, whatever blanks it holds, or as it
    is if that is not base64; of a longer body than 25 megabytes only the beginning counts.
   */
  lemma {:induction false} ContentMeans(p: Part, bytes: string)
    requires p.body.Some?
    ensures |p.body.value| > 26_214_400 ==> Content(p) == Content(p.(body := Some(p.body.value[..26_214_400])))
    ensures |p.body.value| <= 26_214_400 ==>
              && (ToLower(p.hdr.encoding) != "base64" ==> Content(p) == p.body.value)
              && (ToLower(p.hdr.encoding) == "base64" ==>
                    && (Bytes(bytes) && Scattered(p.body.value, Encode(bytes, Std)) ==> Content(p) == bytes)
                    && (!WellFormed(Without(Without(p.body.value, IsBlank), IsNewline), Std) ==> Content(p) == p.body.value))
  {
    hide Decoded, ToLower, Scattered, Without, WellFormed;
    if ToLower(p.hdr.encoding) == "base64" {
      if Bytes(bytes) && Scattered(p.body.value, Encode(bytes, Std)) { DecodesScattered(bytes, p.body.value); }
      if !WellFormed(Without(Without(p.body.value, IsBlank), IsNewline), Std) { NotDecoded(p.body.value); }
    } else {
      NotEncoded(p.body.value, ToLower(p.hdr.encoding));
    }
  }

  lemma {:induction false} NotDecoded(data: string)
    requires !WellFormed(Without(Without(data, IsBlank), IsNewline), Std)
    ensures Decoded(data, "base64") == data
  {
    DecodesIff(Without(Without(data, IsBlank), IsNewline), Std);
  }

  lemma NotEncoded(data: string, encoding: string)
    requires encoding != "base64"
    ensures Decoded(data, encoding) == data
  {
  }

  // ----- The walk -----

  function Leaves(p: Part): seq<Part>
    decreases p, 1
  {
    if IsMultipart(p) then LeavesOf(p, |p.subparts|) else [p]
  }

  /** The leaves under the first n subparts, in document order. */
  function LeavesOf(p: Part, n: nat): seq<Part>
    requires n <= |p.subparts|
    decreases p, 0, n
  {
    if n == 0 then [] else LeavesOf(p, n - 1) + Leaves(p.subparts[n - 1])
  }

  function Merge(a: Found, b: Found): Found {
    Found(if a.html != "" then a.html else b.html, if a.text != "" then a.text else b.text, a.atts + b.atts)
  }

  /** One pass over a flat list of leaves. */
  function SinglePass(leaves: seq<Part>): Found {
    if leaves == [] then NOTHING
    else Merge(SinglePass(leaves[..|leaves| - 1]), LeafFound(leaves[|leaves| - 1]))
  }

  lemma {:induction false} PassAppend(a: seq<Part>, b: seq<Part>)
    ensures SinglePass(a + b) == Merge(SinglePass(a), SinglePass(b))
  {
    hide LeafFound;
    if b == [] {
      assert a + b == a;
    } else {
      assert (a + b)[..|a + b| - 1] == a + b[..|b| - 1];
      PassAppend(a, b[..|b| - 1]);
    }
  }

  method ReadLeaf(p: Part) returns (html: string, text: string, atts: seq<Attachment>)
    ensures Found(html, text, atts) == LeafFound(p)
    ensures html == Shown(p, AsHtml) && text == Shown(p, AsText) && atts == Files(p)
  {
    LeafHasItsRole(p);
    hide Shown, Files;
    html, text, atts := "", "", [];
    if p.body.None? {
      return;
    }
    var mediaType := MediaType(p.hdr);
    var data := if |p.body.value| > MAX_PART then p.body.value[..MAX_PART] else p.body.value;
    data := DecodeTransfer(data, ToLower(p.hdr.encoding));
    var filename := "";
    var disp := p.hdr.disposition;
    if disp != "" {
      if p.hdr.filename.Some? {
        filename := p.hdr.filename.value;
      }
      if Contains(ToLower(disp), "attachment") && filename == "" {
        filename := "attachment";
      }
    }
    if filename == "" && p.hdr.contentType.Parsed? {
      filename := p.hdr.contentType.name;
    }
    if Contains(ToLower(disp), "attachment") || (filename != "" && !("text/" <= mediaType) && mediaType != "message/rfc822") {
      if mediaType == "" {
        mediaType := "application/octet-stream";
      }
      if filename == "" {
        filename := "attachment";
      }
      atts := [Attachment(filename, mediaType, data)];
      return;
    }
    if "text/html" <= mediaType {
      html := data;
    } else if "text/plain" <= mediaType {
      text := data;
    } else if filename != "" {
      atts := [Attachment(filename, mediaType, data)];
    } else {
      text := data;
    }
  }

  /** The recursive walk finds what one pass over the flattened leaves finds. */
  method WalkPart(p: Part) returns (html: string, text: string, atts: seq<Attachment>)
    ensures Found(html, text, atts) == SinglePass(Leaves(p))
    ensures IsFirst(Leaves(p), AsHtml, html) && IsFirst(Leaves(p), AsText, text) && atts == Attachments(Leaves(p))
    decreases p
  {
    hide LeafFound, IsMultipart, IsFirst, Attachments, Shown, Files;
    PassTakesFirst(Leaves(p));
    PassKeepsAttachments(Leaves(p));
    if !IsMultipart(p) {
      html, text, atts := ReadLeaf(p);
      assert [p][..0] == [];
      return;
    }
    html, text, atts := "", "", [];
    for i := 0 to |p.subparts|
      invariant Found(html, text, atts) == SinglePass(LeavesOf(p, i))
    {
      var h, t, a := WalkPart(p.subparts[i]);
      if h != "" && html == "" {
        html := h;
      }
      if t != "" && text == "" {
        text := t;
      }
      atts := atts + a;
      PassAppend(LeavesOf(p, i), Leaves(p.subparts[i]));
    }
  }

  // ----- What one pass means -----

  ghost predicate IsFirst(leaves: seq<Part>, role: Role, s: string) {
    if s == "" then forall i :: 0 <= i < |leaves| ==> Shown(leaves[i], role) == ""
    else exists i :: 0 <= i < |leaves| && Shown(leaves[i], role) == s && forall j :: 0 <= j < i ==> Shown(leaves[j], role) == ""
  }

  lemma FirstSurvives(leaves: seq<Part>, last: Part, role: Role, s: string)
    requires IsFirst(leaves, role, s)
    ensures IsFirst(leaves + [last], role, if s != "" then s else Shown(last, role))
  {
    hide Shown;
    var all := leaves + [last];
    if s != "" {
      var i :| 0 <= i < |leaves| && Shown(leaves[i], role) == s && forall j :: 0 <= j < i ==> Shown(leaves[j], role) == "";
      assert all[i] == leaves[i] && forall j :: 0 <= j < i ==> all[j] == leaves[j];
    } else {
      assert all[|leaves|] == last && forall j :: 0 <= j < |leaves| ==> all[j] == leaves[j];
    }
  }

  /** The HTML and the text are the decoded contents of the first leaves that have that role and any content. */
  lemma {:induction false} PassTakesFirst(leaves: seq<Part>)
    ensures IsFirst(leaves, AsHtml, SinglePass(leaves).html)
    ensures IsFirst(leaves, AsText, SinglePass(leaves).text)
  {
    hide LeafFound, Shown, Files;
    if leaves != [] {
      var front, last := leaves[..|leaves| - 1], leaves[|leaves| - 1];
      PassTakesFirst(front);
      LeafHasItsRole(last);
      FirstSurvives(front, last, AsHtml, SinglePass(front).html);
      FirstSurvives(front, last, AsText, SinglePass(front).text);
      assert front + [last] == leaves;
    }
  }

  function Attachments(leaves: seq<Part>): seq<Attachment> {
    if leaves == [] then [] else Files(leaves[0]) + Attachments(leaves[1..])
  }

  /** Every leaf that is a file is kept, in document order. */
  lemma {:induction false} PassKeepsAttachments(leaves: seq<Part>)
    ensures SinglePass(leaves).atts == Attachments(leaves)
  {
    hide LeafFound, Shown, Files;
    if leaves != [] {
      var head, rest := [leaves[0]], leaves[1..];
      assert leaves == head + rest;
      PassAppend(head, rest);
      assert head[..0] == [];
      assert SinglePass(head) == Merge(NOTHING, LeafFound(leaves[0]));
      LeafHasItsRole(leaves[0]);
      PassKeepsAttachments(rest);
    }
  }

  /** Leaves are never multipart, and a part that is not is its own only leaf. */
  lemma {:induction false} LeavesAreLeaves(p: Part)
    ensures forall l :: l in Leaves(p) ==> !("multipart/" <= MediaType(l.hdr))
    ensures !("multipart/" <= MediaType(p.hdr)) ==> Leaves(p) == [p]
    decreases p, 1
  {
    if IsMultipart(p) { LeavesOfAreLeaves(p, |p.subparts|); }
  }

  lemma {:induction false} LeavesOfAreLeaves(p: Part, n: nat)
    requires n <= |p.subparts|
    ensures forall l :: l in LeavesOf(p, n) ==> !("multipart/" <= MediaType(l.hdr))
    decreases p, 0, n
  {
    if n > 0 {
      LeavesOfAreLeaves(p, n - 1);
      LeavesAreLeaves(p.subparts[n - 1]);
    }
  }

  // ----- Document order -----

  /** The part that a path of positions leads to, through multipart parts only. */
  function At(p: Part, path: seq<nat>): Option<Part>
    decreases |path|
  {
    if path == [] then Some(p)
    else if IsMultipart(p) && path[0] < |p.subparts| then At(p.subparts[path[0]], path[1..])
    else None
  }

  predicate LeadsToLeaf(p: Part, path: seq<nat>) { At(p, path).Some? && !IsMultipart(At(p, path).value) }

  predicate Before(a: seq<nat>, b: seq<nat>) {
    if a == [] || b == [] then a == [] && b != []
    else a[0] < b[0] || (a[0] == b[0] && Before(a[1..], b[1..]))
  }

  /** The paths lead to the leaves, one to each, and come one after the other in the document. */
  ghost predicate Locates(p: Part, leaves: seq<Part>, paths: seq<seq<nat>>) {
    && |paths| == |leaves|
    && (forall i :: 0 <= i < |paths| ==> LeadsToLeaf(p, paths[i]) && At(p, paths[i]).value == leaves[i])
    && (forall i, j :: 0 <= i < j < |paths| ==> Before(paths[i], paths[j]))
  }

  lemma {:induction false} Below(p: Part, k: nat, path: seq<nat>)
    requires IsMultipart(p) && k < |p.subparts|
    ensures At(p, [k] + path) == At(p.subparts[k], path)
  {
    hide IsMultipart;
    assert ([k] + path)[1..] == path;
  }

  function Under(k: nat, paths: seq<seq<nat>>): seq<seq<nat>> {
    seq(|paths|, i requires 0 <= i < |paths| => [k] + paths[i])
  }

  lemma UnderLocates(p: Part, k: nat, leaves: seq<Part>, paths: seq<seq<nat>>)
    requires IsMultipart(p) && k < |p.subparts| && Locates(p.subparts[k], leaves, paths)
    ensures Locates(p, leaves, Under(k, paths))
  {
    hide IsMultipart, At;
    var us := Under(k, paths);
    forall i | 0 <= i < |us| ensures LeadsToLeaf(p, us[i]) && At(p, us[i]).value == leaves[i] {
      Below(p, k, paths[i]);
    }
    forall i, j | 0 <= i < j < |us| ensures Before(us[i], us[j]) {
      assert us[i][1..] == paths[i] && us[j][1..] == paths[j];
    }
  }

  /** The flattened leaves are all the leaves of the tree, in document order. */
  lemma {:induction false} LeavesInDocumentOrder(p: Part) returns (paths: seq<seq<nat>>)
    ensures Locates(p, Leaves(p), paths)
    ensures forall path :: LeadsToLeaf(p, path) <==> path in paths
    decreases p, 1
  {
    hide IsMultipart;
    if IsMultipart(p) {
      paths := LeavesOfInOrder(p, |p.subparts|);
    } else {
      paths := [[]];
    }
  }

  lemma {:induction false} LeavesOfInOrder(p: Part, n: nat) returns (paths: seq<seq<nat>>)
    requires IsMultipart(p) && n <= |p.subparts|
    ensures Locates(p, LeavesOf(p, n), paths)
    ensures forall path :: path in paths <==> LeadsToLeaf(p, path) && path != [] && path[0] < n
    decreases p, 0, n
  {
    hide IsMultipart, At;
    if n == 0 { return []; }
    var k := n - 1;
    var front := LeavesOfInOrder(p, k);
    var inner := LeavesInDocumentOrder(p.subparts[k]);
    UnderLocates(p, k, Leaves(p.subparts[k]), inner);
    UnderIsAll(p, k, inner);
    OneAfterAnother(p, LeavesOf(p, k), front, Leaves(p.subparts[k]), Under(k, inner), k);
    paths := front + Under(k, inner);
  }

  lemma UnderIsAll(p: Part, k: nat, inner: seq<seq<nat>>)
    requires IsMultipart(p) && k < |p.subparts| && forall path :: LeadsToLeaf(p.subparts[k], path) <==> path in inner
    ensures forall path :: path in Under(k, inner) <==> LeadsToLeaf(p, path) && path != [] && path[0] == k
  {
    hide IsMultipart, At;
    var us := Under(k, inner);
    forall path: seq<nat> ensures path in us <==> LeadsToLeaf(p, path) && path != [] && path[0] == k {
      if path in us {
        var i :| 0 <= i < |us| && us[i] == path;
        Below(p, k, inner[i]);
        assert inner[i] in inner;
      }
      if path != [] && path[0] == k {
        assert path == [k] + path[1..];
        Below(p, k, path[1..]);
        if path[1..] in inner {
          var i :| 0 <= i < |inner| && inner[i] == path[1..];
          assert us[i] == path;
        }
      }
    }
  }

  lemma OneAfterAnother(p: Part, a: seq<Part>, pa: seq<seq<nat>>, b: seq<Part>, pb: seq<seq<nat>>, k: nat)
    requires Locates(p, a, pa) && Locates(p, b, pb)
    requires forall path :: path in pa ==> path != [] && path[0] < k
    requires forall path :: path in pb ==> path != [] && path[0] == k
    ensures Locates(p, a + b, pa + pb)
  {
    hide IsMultipart, At;
    forall i, j | 0 <= i < |pa| && 0 <= j < |pb| ensures Before(pa[i], pb[j]) {
      assert pa[i] in pa && pb[j] in pb;
    }
  }
}
