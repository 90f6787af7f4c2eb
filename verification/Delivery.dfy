/**
  Delivery events: how a message's status follows from the events reported for it, in whatever order and however
  often they arrive, and what a bounce or a complaint does to the suppression list.
 */
module Delivery {
  import opened Text
  import Consent

  // ----- Status transitions -----

  predicate IsTerminal(s: string) {
    s == "bounced" || s == "complained" || s == "failed" || s == "suppressed" || s == "canceled"
  }

  predicate CanTransition(from: string, to: string) {
    to != "" && !(IsTerminal(from) && !IsTerminal(to))
  }

  function NextStatus(s: string, candidate: string): string {
    if CanTransition(s, candidate) then candidate else s
  }

  /** The status after a sequence of candidates, "" meaning that an event proposes none. */
  function Fold(s: string, cands: seq<string>): string {
    if cands == [] then s else NextStatus(Fold(s, cands[..|cands| - 1]), cands[|cands| - 1])
  }

  function LastOf(cands: seq<string>, terminal: bool): Option<string> {
    if cands == [] then None
    else if cands[|cands| - 1] != "" && IsTerminal(cands[|cands| - 1]) == terminal then Some(cands[|cands| - 1])
    else LastOf(cands[..|cands| - 1], terminal)
  }

  lemma {:induction false} LastOfMeans(cands: seq<string>, terminal: bool)
    ensures match LastOf(cands, terminal)
            case None => forall c :: c in cands ==> c == "" || IsTerminal(c) != terminal
            case Some(x) => x in cands && x != "" && IsTerminal(x) == terminal
  {
    if cands != [] {
      LastOfMeans(cands[..|cands| - 1], terminal);
      assert cands == cands[..|cands| - 1] + [cands[|cands| - 1]];
    }
  }

  /** The last terminal candidate, else the start if that was terminal, else the last other candidate. */
  lemma {:induction false} FinalStatus(s: string, cands: seq<string>)
    ensures Fold(s, cands) ==
            match LastOf(cands, true)
            case Some(t) => t
            case None =>
              if IsTerminal(s) then s
              else match LastOf(cands, false) case Some(x) => x case None => s
  {
    if cands != [] {
      var front := cands[..|cands| - 1];
      FinalStatus(s, front);
      LastOfMeans(front, true);
      LastOfMeans(front, false);
    }
  }

  // ----- When the order of arrival does not matter -----

  ghost predicate OrderFree(s: string, cands: seq<string>) {
    forall p: seq<string> :: multiset(p) == multiset(cands) ==> Fold(s, p) == Fold(s, cands)
  }

  ghost predicate Agree(cands: seq<string>, terminal: bool) {
    forall a, b :: a in cands && b in cands && a != "" && b != "" && IsTerminal(a) == terminal && IsTerminal(b) == terminal ==> a == b
  }

  ghost predicate HasTerminal(cands: seq<string>) { exists c :: c in cands && IsTerminal(c) }

  lemma MovedToEnd(cands: seq<string>, a: string) returns (p: seq<string>)
    requires a in cands && a != ""
    ensures multiset(p) == multiset(cands)
    ensures LastOf(p, IsTerminal(a)) == Some(a)
  {
    var i :| 0 <= i < |cands| && cands[i] == a;
    p := cands[..i] + cands[i + 1..] + [a];
    assert cands == cands[..i] + [a] + cands[i + 1..];
  }

  lemma SameElements<T>(p: seq<T>, q: seq<T>)
    requires multiset(p) == multiset(q)
    ensures forall c :: c in p <==> c in q
  {
    forall c: T ensures c in p <==> c in q {
      assert c in multiset(p) <==> c in multiset(q);
    }
  }

  ghost predicate Settled(s: string, cands: seq<string>) {
    if HasTerminal(cands) then Agree(cands, true) else IsTerminal(s) || Agree(cands, false)
  }

  lemma {:induction false} SettledFold(s: string, p: seq<string>, cands: seq<string>)
    requires Settled(s, cands) && forall c :: c in p <==> c in cands
    ensures Fold(s, p) == Fold(s, cands)
  {
    FinalStatus(s, p);
    FinalStatus(s, cands);
    LastOfMeans(p, true);
    LastOfMeans(p, false);
    LastOfMeans(cands, true);
    LastOfMeans(cands, false);
  }

  lemma AgreeingOrderFree(s: string, cands: seq<string>)
    requires Settled(s, cands)
    ensures OrderFree(s, cands)
  {
    forall p: seq<string> | multiset(p) == multiset(cands) ensures Fold(s, p) == Fold(s, cands) {
      SameElements(p, cands);
      SettledFold(s, p, cands);
    }
  }

  lemma DisagreeingShowsOrder(s: string, cands: seq<string>, a: string, b: string)
    requires a in cands && b in cands && a != "" && b != "" && a != b && IsTerminal(a) == IsTerminal(b)
    requires IsTerminal(a) || (!HasTerminal(cands) && !IsTerminal(s))
    ensures !OrderFree(s, cands)
  {
    var pa := MovedToEnd(cands, a);
    var pb := MovedToEnd(cands, b);
    FinalStatus(s, pa);
    FinalStatus(s, pb);
    SameElements(pa, cands);
    SameElements(pb, cands);
    LastOfMeans(pa, true);
    LastOfMeans(pb, true);
    assert Fold(s, pa) == a && Fold(s, pb) == b;
  }

  /**
    All orders of the same events agree exactly when the terminal candidates are all the same, or there are none and
    either the message was terminal already or the other candidates are all the same.
   */
  lemma OrderFreeIff(s: string, cands: seq<string>)
    ensures OrderFree(s, cands) <==> Settled(s, cands)
  {
    if HasTerminal(cands) && !Agree(cands, true) {
      var a, b :| a in cands && b in cands && a != "" && b != "" && IsTerminal(a) == true && IsTerminal(b) == true && a != b;
      DisagreeingShowsOrder(s, cands, a, b);
    } else if !HasTerminal(cands) && !IsTerminal(s) && !Agree(cands, false) {
      var a, b :| a in cands && b in cands && a != "" && b != "" && IsTerminal(a) == false && IsTerminal(b) == false && a != b;
      DisagreeingShowsOrder(s, cands, a, b);
    } else {
      AgreeingOrderFree(s, cands);
    }
  }

  // ----- Events -----

  /** The system's name for a provider's type, itself in lower case, without the prefix. */
  function OwnName(l: string): string {
    if l == "send" then "sent"
    else if l == "delivery" then "delivered"
    else if l == "bounce" then "bounced"
    else if l == "complaint" then "complained"
    else if l == "reject" then "failed"
    else if l == "deliverydelay" then "delivery_delayed"
    else if l == "open" then "opened"
    else if l == "click" then "clicked"
    else l
  }

  function MapSESType(t: string): string { "email." + OwnName(ToLower(t)) }

  function StatusFromEvent(t: string): string {
    if t == "email.sent" then "sent"
    else if t == "email.delivered" then "delivered"
    else if t == "email.bounced" then "bounced"
    else if t == "email.complained" then "complained"
    else if t == "email.failed" then "failed"
    else if t == "email.suppressed" then "suppressed"
    else ""
  }

  datatype Bounce = Bounce(bounceType: string, recipients: seq<string>)

  datatype SesEvent = SesEvent(eventType: string, messageId: string, destination: seq<string>,
                               bounce: Option<Bounce>, complaint: Option<seq<string>>)

  datatype Email = Email(status: string, toAddrs: seq<string>)

  function Clean(a: string): string { ToLower(TrimSpace(a)) }

  /** Trimmed and lower-cased, blanks and repeats dropped, in order of first appearance. */
  function Cleaned(addrs: seq<string>): seq<string> {
    if addrs == [] then []
    else
      var front, e := Cleaned(addrs[..|addrs| - 1]), Clean(addrs[|addrs| - 1]);
      if e == "" || e in front then front else front + [e]
  }

  /** The addresses a list stands for. */
  function CleanSet(addrs: seq<string>): set<string> {
    set i | 0 <= i < |addrs| && Clean(addrs[i]) != "" :: Clean(addrs[i])
  }

  lemma CleanSetStep(addrs: seq<string>)
    requires addrs != []
    ensures var n := |addrs| - 1;
            CleanSet(addrs) == CleanSet(addrs[..n]) + if Clean(addrs[n]) == "" then {} else {Clean(addrs[n])}
  {
    var n := |addrs| - 1;
    forall e | e in CleanSet(addrs[..n]) ensures e in CleanSet(addrs) {
      var i :| 0 <= i < n && Clean(addrs[..n][i]) == e;
      assert Clean(addrs[i]) == e;
    }
    forall e | e in CleanSet(addrs) && e != Clean(addrs[n]) ensures e in CleanSet(addrs[..n]) {
      var i :| 0 <= i < |addrs| && Clean(addrs[i]) == e;
      assert Clean(addrs[..n][i]) == e;
    }
  }

  lemma {:induction false} CleanedHolds(addrs: seq<string>)
    ensures forall e :: e in Cleaned(addrs) <==> e in CleanSet(addrs)
    ensures forall i, j :: 0 <= i < j < |Cleaned(addrs)| ==> Cleaned(addrs)[i] != Cleaned(addrs)[j]
  {
    if addrs != [] {
      CleanedHolds(addrs[..|addrs| - 1]);
      CleanSetStep(addrs);
    }
  }

  method NormalizeEmails(addrs: seq<string>) returns (out: seq<string>)
    ensures out == Cleaned(addrs)
  {
    var seen: set<string> := {};
    out := [];
    for i := 0 to |addrs|
      invariant out == Cleaned(addrs[..i])
      invariant forall e :: e in seen <==> e in out
    {
      assert addrs[..i + 1][..i] == addrs[..i];
      var e := Clean(addrs[i]);
      if e == "" || e in seen {
        continue;
      }
      seen := seen + {e};
      out := out + [e];
    }
    assert addrs[..|addrs|] == addrs;
  }

  predicate CoversAll(affected: seq<string>, dests: seq<string>) {
    var aff, ds := Cleaned(affected), Cleaned(dests);
    aff != [] && ds != [] && forall d :: d in ds ==> d in aff
  }

  method RecipientsCoverAll(affected: seq<string>, dests: seq<string>) returns (all: bool)
    ensures all <==> CoversAll(affected, dests)
  {
    var aff := NormalizeEmails(affected);
    var ds := NormalizeEmails(dests);
    if |aff| == 0 || |ds| == 0 {
      return false;
    }
    for i := 0 to |ds|
      invariant forall d :: d in ds[..i] ==> d in aff
    {
      if ds[i] !in aff {
        return false;
      }
    }
    assert ds[..|ds|] == ds;
    return true;
  }

  function NonBlank(addrs: seq<string>): seq<string> {
    if addrs == [] then []
    else NonBlank(addrs[..|addrs| - 1]) + if TrimSpace(addrs[|addrs| - 1]) != "" then [TrimSpace(addrs[|addrs| - 1])] else []
  }

  /** The addresses a bounce or a complaint names. */
  function Affected(ev: SesEvent): seq<string> {
    var mapped := MapSESType(ev.eventType);
    if mapped == "email.bounced" then (if ev.bounce.Some? then NonBlank(ev.bounce.value.recipients) else [])
    else if mapped == "email.complained" then (if ev.complaint.Some? then NonBlank(ev.complaint.value) else [])
    else []
  }

  predicate IsPermanent(ev: SesEvent) { ev.bounce.Some? && ToLower(ev.bounce.value.bounceType) == "permanent" }

  function KnownDestinations(row: Email, ev: SesEvent): seq<string> {
    if Cleaned(ev.destination) != [] then Cleaned(ev.destination) else Cleaned(row.toAddrs)
  }

  /** The status an event proposes: none for a transient bounce, or when a report does not cover every destination. */
  function Candidate(row: Email, ev: SesEvent): string {
    var mapped := MapSESType(ev.eventType);
    var candidate := StatusFromEvent(mapped);
    if mapped == "email.bounced" && ev.bounce.Some? && !IsPermanent(ev) then ""
    else if candidate == "bounced" || candidate == "complained" then
      if CoversAll(Affected(ev), KnownDestinations(row, ev)) then candidate else ""
    else candidate
  }

  function SuppressReason(ev: SesEvent): Option<string> {
    var mapped := MapSESType(ev.eventType);
    if mapped == "email.complained" then Some("complaint")
    else if mapped == "email.bounced" && IsPermanent(ev) then Some("bounce")
    else None
  }

  /** The suppression entries an event writes; blank addresses cannot occur among the affected ones. */
  function Entries(addrs: seq<string>, reason: string): seq<Consent.Stmt> {
    if addrs == [] then []
    else Entries(addrs[..|addrs| - 1], reason) + [Consent.EntryOf(addrs[|addrs| - 1], reason)]
  }

  function Writes(ev: SesEvent): seq<Consent.Stmt> {
    match SuppressReason(ev) case None => [] case Some(reason) => Entries(Affected(ev), reason)
  }

  lemma {:induction false} NonBlankHolds(addrs: seq<string>)
    ensures forall a :: a in NonBlank(addrs) ==> Clean(a) != ""
  {
    if addrs != [] {
      NonBlankHolds(addrs[..|addrs| - 1]);
      TrimSpaceIsTrimmed(addrs[|addrs| - 1]);
      TrimmedIsFixed(TrimSpace(addrs[|addrs| - 1]));
    }
  }

  // ----- What the provider's reports mean -----

  predicate IsSend(ev: SesEvent) { ToLower(ev.eventType) in {"send", "sent"} }

  predicate IsDelivery(ev: SesEvent) { ToLower(ev.eventType) in {"delivery", "delivered"} }

  predicate IsBounce(ev: SesEvent) { ToLower(ev.eventType) in {"bounce", "bounced"} }

  predicate IsComplaint(ev: SesEvent) { ToLower(ev.eventType) in {"complaint", "complained"} }

  predicate IsReject(ev: SesEvent) { ToLower(ev.eventType) in {"reject", "failed"} }

  predicate IsSuppressed(ev: SesEvent) { ToLower(ev.eventType) == "suppressed" }

  lemma Unprefixed(t: string, name: string, full: string)
    requires full == "email." + name
    ensures "email." + t == full <==> t == name
  {
    assert ("email." + t)[6..] == t && full[6..] == name;
  }

  lemma OwnNameIs(ev: SesEvent)
    ensures var name := OwnName(ToLower(ev.eventType));
            && (name == "sent" <==> IsSend(ev)) && (name == "delivered" <==> IsDelivery(ev))
            && (name == "bounced" <==> IsBounce(ev)) && (name == "complained" <==> IsComplaint(ev))
            && (name == "failed" <==> IsReject(ev)) && (name == "suppressed" <==> IsSuppressed(ev))
  {
    hide ToLower;
  }

  /** A type that the table does not know is taken over as it is, so the system's own names are understood as well. */
  lemma MappedIs(ev: SesEvent)
    ensures MapSESType(ev.eventType) == "email.sent" <==> IsSend(ev)
    ensures MapSESType(ev.eventType) == "email.delivered" <==> IsDelivery(ev)
    ensures MapSESType(ev.eventType) == "email.bounced" <==> IsBounce(ev)
    ensures MapSESType(ev.eventType) == "email.complained" <==> IsComplaint(ev)
    ensures MapSESType(ev.eventType) == "email.failed" <==> IsReject(ev)
    ensures MapSESType(ev.eventType) == "email.suppressed" <==> IsSuppressed(ev)
  {
    hide ToLower, OwnName, IsSend, IsDelivery, IsBounce, IsComplaint, IsReject, IsSuppressed;
    var name := OwnName(ToLower(ev.eventType));
    OwnNameIs(ev);
    Unprefixed(name, "sent", "email.sent");
    Unprefixed(name, "delivered", "email.delivered");
    Unprefixed(name, "bounced", "email.bounced");
    Unprefixed(name, "complained", "email.complained");
    Unprefixed(name, "failed", "email.failed");
    Unprefixed(name, "suppressed", "email.suppressed");
  }

  /** The list names every known destination of the message, and some destination is known. */
  ghost predicate Covers(named: seq<string>, row: Email, ev: SesEvent) {
    var dests := if CleanSet(ev.destination) != {} then CleanSet(ev.destination) else CleanSet(row.toAddrs);
    dests != {} && dests <= CleanSet(named)
  }

  predicate Over(s: string) { s in {"bounced", "complained", "failed", "suppressed", "canceled"} }

  /** The report ends the message with this status. */
  ghost predicate Ends(row: Email, ev: SesEvent, s: string) {
    || (s == "failed" && IsReject(ev))
    || (s == "suppressed" && IsSuppressed(ev))
    || (s == "bounced" && IsBounce(ev) && ev.bounce.Some? && ToLower(ev.bounce.value.bounceType) == "permanent"
        && Covers(ev.bounce.value.recipients, row, ev))
    || (s == "complained" && IsComplaint(ev) && ev.complaint.Some? && Covers(ev.complaint.value, row, ev))
  }

  /** The report moves a message that is not over to this status. */
  predicate Moves(ev: SesEvent, s: string) {
    (s == "sent" && IsSend(ev)) || (s == "delivered" && IsDelivery(ev))
  }

  ghost predicate IsFinal(row: Email, ev: SesEvent) { exists s :: Ends(row, ev, s) }

  predicate IsProgress(ev: SesEvent) { IsSend(ev) || IsDelivery(ev) }

  lemma CleanOfTrimmed(a: string)
    ensures Clean(TrimSpace(a)) == Clean(a)
    ensures TrimSpace(a) == "" ==> Clean(a) == ""
  {
    TrimSpaceIsTrimmed(a);
    TrimmedIsFixed(TrimSpace(a));
  }

  lemma {:induction false} NonBlankKeeps(addrs: seq<string>)
    ensures CleanSet(NonBlank(addrs)) == CleanSet(addrs)
  {
    hide CleanSet, Clean, TrimSpace;
    if addrs != [] {
      var n := |addrs| - 1;
      NonBlankKeeps(addrs[..n]);
      CleanOfTrimmed(addrs[n]);
      CleanSetStep(addrs);
      if TrimSpace(addrs[n]) != "" {
        var all := NonBlank(addrs);
        assert all[..|all| - 1] == NonBlank(addrs[..n]);
        CleanSetStep(all);
      } else {
        assert NonBlank(addrs) == NonBlank(addrs[..n]);
      }
    }
  }

  lemma {:induction false} CleanedKeeps(addrs: seq<string>)
    ensures CleanSet(Cleaned(addrs)) == CleanSet(addrs)
    ensures Cleaned(addrs) == [] <==> CleanSet(addrs) == {}
  {
    hide Clean;
    var ds := Cleaned(addrs);
    CleanedHolds(addrs);
    forall d | d in ds ensures Clean(d) == d && d != "" {
      CleanedTwice(addrs, d);
    }
    forall e ensures e in CleanSet(ds) <==> e in CleanSet(addrs) {
      if e in ds {
        var k :| 0 <= k < |ds| && ds[k] == e;
        assert Clean(ds[k]) in CleanSet(ds);
      }
    }
    if ds != [] { assert ds[0] in CleanSet(addrs); }
  }

  lemma {:induction false} CoversIff(named: seq<string>, row: Email, ev: SesEvent)
    ensures CoversAll(NonBlank(named), KnownDestinations(row, ev)) <==> Covers(named, row, ev)
  {
    hide CleanSet, Cleaned, NonBlank;
    var known := KnownDestinations(row, ev);
    NonBlankKeeps(named);
    CleanedHolds(NonBlank(named));
    CleanedKeeps(NonBlank(named));
    CleanedKeeps(ev.destination);
    CleanedKeeps(row.toAddrs);
    CleanedKeeps(known);
    CleanedHolds(known);
  }

  /** What a report proposes is what it ends the message with or moves it to. */
  lemma ProposalMeans(row: Email, ev: SesEvent, s: string)
    ensures Ends(row, ev, s) <==> Candidate(row, ev) == s && IsTerminal(s)
    ensures Moves(ev, s) <==> Candidate(row, ev) == s && s != "" && !IsTerminal(s)
  {
    hide Cleaned, CoversAll, Covers, ToLower, MapSESType, KnownDestinations;
    MappedIs(ev);
    if ev.bounce.Some? { CoversIff(ev.bounce.value.recipients, row, ev); }
    if ev.complaint.Some? { CoversIff(ev.complaint.value, row, ev); }
    NothingCovers(KnownDestinations(row, ev));
  }

  lemma NothingCovers(dests: seq<string>)
    ensures !CoversAll([], dests)
  {
    assert Cleaned([]) == [];
  }

  /**
    The status a report leaves: an ending one sets it whatever it was; a send or a delivery sets it unless the message is
    over; any other report, delay, opening and click among them, leaves it.
   */
  ghost predicate LeavesStatus(row: Email, ev: SesEvent, s: string) {
    if IsFinal(row, ev) then Ends(row, ev, s)
    else if IsProgress(ev) && !Over(row.status) then Moves(ev, s)
    else s == row.status
  }

  lemma ReportLeaves(row: Email, ev: SesEvent)
    ensures LeavesStatus(row, ev, NextStatus(row.status, Candidate(row, ev)))
  {
    hide Candidate, Ends, IsSend, IsDelivery;
    var c := Candidate(row, ev);
    ProposalMeans(row, ev, c);
    if IsFinal(row, ev) {
      var s :| Ends(row, ev, s);
      ProposalMeans(row, ev, s);
    } else if IsProgress(ev) {
      ProposalMeans(row, ev, "sent");
      ProposalMeans(row, ev, "delivered");
    }
  }

  /** The addresses whose sends a report stops, and the reason it gives. */
  ghost function Stopped(ev: SesEvent): set<string> {
    if IsComplaint(ev) && ev.complaint.Some? then CleanSet(ev.complaint.value)
    else if IsBounce(ev) && ev.bounce.Some? && ToLower(ev.bounce.value.bounceType) == "permanent" then CleanSet(ev.bounce.value.recipients)
    else {}
  }

  /** Whatever it does to the status, a report suppresses exactly the addresses it names in a complaint or a permanent bounce. */
  lemma {:induction false} ReportSuppresses(db: Consent.Db, ev: SesEvent)
    ensures var r := Consent.Exec(db, Writes(ev));
            && r.contacts == db.contacts && r.topicSubs == db.topicSubs
            && r.suppressions.Keys == db.suppressions.Keys + Stopped(ev)
            && (forall e :: e in Stopped(ev) ==> r.suppressions[e] == if IsComplaint(ev) then "complaint" else "bounce")
            && (forall e :: e in db.suppressions && e !in Stopped(ev) ==> r.suppressions[e] == db.suppressions[e])
  {
    hide CleanSet, Consent.Exec, Entries, NonBlank, MapSESType, ToLower;
    MappedIs(ev);
    AffectedAreNotBlank(ev);
    NothingClean([], db);
    if ev.bounce.Some? { NonBlankKeeps(ev.bounce.value.recipients); }
    if ev.complaint.Some? { NonBlankKeeps(ev.complaint.value); }
    match SuppressReason(ev)
    case None =>
    case Some(reason) =>
      EntriesSuppress(db, Affected(ev), reason);
  }

  class EventStore {
    var emails: map<string, Email>   // by the provider's message id
    var consent: Consent.ConsentStore

    constructor (emails: map<string, Email>)
      ensures this.emails == emails && fresh(consent) && consent.db == Consent.Db(map[], map[], map[])
    {
      this.emails := emails;
      consent := new Consent.ConsentStore();
    }

    method HandleSES(ev: SesEvent)
      modifies this`emails, consent
      ensures consent == old(consent)
      ensures ev.messageId !in old(emails) || ev.messageId == "" ==> emails == old(emails) && consent.db == old(consent.db)
      ensures ev.messageId in old(emails) && ev.messageId != "" ==>
                var row := old(emails)[ev.messageId];
                && emails == old(emails)[ev.messageId := row.(status := NextStatus(row.status, Candidate(row, ev)))]
                && LeavesStatus(row, ev, emails[ev.messageId].status)
                && consent.db == Consent.Exec(old(consent.db), Writes(ev))
                && consent.db.suppressions.Keys == old(consent.db).suppressions.Keys + Stopped(ev)
    {
      hide LeavesStatus, Stopped, Consent.Exec, Entries, MapSESType, StatusFromEvent, IsTerminal, Cleaned, IsPermanent, Affected;
      if ev.messageId == "" || ev.messageId !in emails {
        return;
      }
      var row := emails[ev.messageId];
      var mapped := MapSESType(ev.eventType);
      var permanentBounce := mapped == "email.bounced" && IsPermanent(ev);
      var transientBounce := mapped == "email.bounced" && ev.bounce.Some? && !IsPermanent(ev);
      var affected := Affected(ev);
      var newStatus := "";
      if !transientBounce {
        var candidate := StatusFromEvent(mapped);
        if candidate == "bounced" || candidate == "complained" {
          var dests := NormalizeEmails(ev.destination);
          if |dests| == 0 {
            dests := NormalizeEmails(row.toAddrs);
          }
          var all := RecipientsCoverAll(affected, dests);
          if all {
            newStatus := candidate;
          }
        } else {
          newStatus := candidate;
        }
      }
      assert newStatus == Candidate(row, ev);
      ReportLeaves(row, ev);
      ReportSuppresses(consent.db, ev);
      assert emails == emails[ev.messageId := row];
      NothingClean([], consent.db);
      if newStatus != "" && CanTransition(row.status, newStatus) {
        emails := emails[ev.messageId := row.(status := newStatus)];
      }
      if mapped == "email.complained" || permanentBounce {
        SuppressAll(affected, if mapped == "email.complained" then "complaint" else "bounce", ev);
      }
    }

    method SuppressAll(affected: seq<string>, reason: string, ghost ev: SesEvent)
      requires affected == Affected(ev) && reason != ""
      modifies consent
      ensures consent.db == Consent.Exec(old(consent.db), Entries(affected, reason))
    {
      AffectedAreNotBlank(ev);
      for i := 0 to |affected|
        invariant consent.db == Consent.Exec(old(consent.db), Entries(affected[..i], reason))
      {
        assert affected[..i + 1][..i] == affected[..i];
        assert affected[i] in affected;
        Consent.ExecOne(old(consent.db), Entries(affected[..i], reason), Consent.EntryOf(affected[i], reason));
        var _ := consent.Add(affected[i], reason);
      }
      assert affected[..|affected|] == affected;
    }
  }

  // ----- What a report leaves behind -----

  lemma {:induction false} NothingClean(addrs: seq<string>, db: Consent.Db)
    requires addrs == []
    ensures CleanSet(addrs) == {} && Consent.Exec(db, []) == db
  {
  }

  lemma {:induction false} EntriesSuppress(db: Consent.Db, addrs: seq<string>, reason: string)
    requires Consent.Hard(reason) && forall a :: a in addrs ==> Clean(a) != ""
    ensures var r := Consent.Exec(db, Entries(addrs, reason));
            && r.suppressions.Keys == db.suppressions.Keys + CleanSet(addrs)
            && r.contacts == db.contacts && r.topicSubs == db.topicSubs
            && (forall e :: e in CleanSet(addrs) ==> e in r.suppressions && r.suppressions[e] == reason)
            && (forall e :: e in db.suppressions && e !in CleanSet(addrs) ==> r.suppressions[e] == db.suppressions[e])
  {
    hide CleanSet, Consent.Exec;
    if addrs == [] {
      NothingClean(addrs, db);
    } else {
      var n := |addrs| - 1;
      EntriesSuppress(db, addrs[..n], reason);
      Consent.ExecOne(db, Entries(addrs[..n], reason), Consent.EntryOf(addrs[n], reason));
      CleanSetStep(addrs);
      assert addrs[n] in addrs;
      var before := Consent.Exec(db, Entries(addrs[..n], reason));
      assert Consent.Exec(db, Entries(addrs, reason)).suppressions == before.suppressions[Clean(addrs[n]) := reason];
    }
  }

  lemma AffectedAreNotBlank(ev: SesEvent)
    ensures forall a :: a in Affected(ev) ==> Clean(a) != ""
  {
    if ev.bounce.Some? { NonBlankHolds(ev.bounce.value.recipients); }
    if ev.complaint.Some? { NonBlankHolds(ev.complaint.value); }
  }

  lemma SetBySuppressingEvent(row: Email, ev: SesEvent)
    requires Candidate(row, ev) == "bounced" || Candidate(row, ev) == "complained"
    ensures SuppressReason(ev).Some? && Consent.Hard(SuppressReason(ev).value)
    ensures CoversAll(Affected(ev), KnownDestinations(row, ev))
  {
    assert Cleaned([]) == [];
  }

  lemma {:induction false} CleanedTwice(addrs: seq<string>, d: string)
    requires d in Cleaned(addrs)
    ensures Clean(d) == d && d != ""
  {
    CleanedHolds(addrs);
    var i :| 0 <= i < |addrs| && Clean(addrs[i]) == d;
    var t := TrimSpace(addrs[i]);
    TrimSpaceIsTrimmed(addrs[i]);
    LowerKeepsTrimmed(t);
    TrimmedIsFixed(d);
    LowerIsIdempotent(t);
  }

  /** Every known destination of a covered message is among the addresses reported. */
  lemma CoveredIsAffected(row: Email, ev: SesEvent, d: string)
    requires CoversAll(Affected(ev), KnownDestinations(row, ev)) && d in KnownDestinations(row, ev)
    ensures d in CleanSet(Affected(ev))
  {
    var ds := KnownDestinations(row, ev);
    CleanedTwice(if Cleaned(ev.destination) != [] then ev.destination else row.toAddrs, d);
    CleanedHolds(ds);
    CleanedHolds(Affected(ev));
    var k :| 0 <= k < |ds| && ds[k] == d;
    assert Clean(ds[k]) in CleanSet(ds);
  }

  lemma {:induction false} LowerKeepsTrimmed(t: string)
    requires Trimmed(t)
    ensures Trimmed(ToLower(t))
  {
  }

  /**
    When a report sets a message to bounced or complained, the suppression list grows by exactly the addresses
    reported, every known destination is among them with a hard reason, and, until its entry is removed by hand,
    a later send with an address that its check looks up as one of them is refused.
   */
  lemma {:induction false} ReportSuppressesDestinations(db: Consent.Db, row: Email, ev: SesEvent, later: seq<Consent.Stmt>, d: string,
                                     addrs: seq<string>, normalize: string -> string)
    requires Candidate(row, ev) == "bounced" || Candidate(row, ev) == "complained"
    ensures NextStatus(row.status, Candidate(row, ev)) == Candidate(row, ev)
    ensures var r := Consent.Exec(db, Writes(ev));
            && r.suppressions.Keys == db.suppressions.Keys + CleanSet(Affected(ev))
            && (d in KnownDestinations(row, ev) ==>
                  && d in r.suppressions && Consent.Hard(r.suppressions[d])
                  && (Consent.RemoveRow(d) !in later && (exists a :: a in addrs && normalize(a) == d)
                      ==> !Consent.SendAllowed(Consent.Exec(r, later), addrs, normalize)))
  {
    SetBySuppressingEvent(row, ev);
    AffectedAreNotBlank(ev);
    EntriesSuppress(db, Affected(ev), SuppressReason(ev).value);
    if d in KnownDestinations(row, ev) {
      CoveredIsAffected(row, ev, d);
      if Consent.RemoveRow(d) !in later {
        Consent.HardReasonStays(Consent.Exec(db, Writes(ev)), later, d);
      }
    }
  }

  /** A report that leaves out a destination, or a transient bounce, never changes the status. */
  lemma PartialReportKeepsStatus(row: Email, ev: SesEvent, d: string)
    requires MapSESType(ev.eventType) == "email.bounced" || MapSESType(ev.eventType) == "email.complained"
    requires d in Cleaned(KnownDestinations(row, ev)) && d !in Cleaned(Affected(ev))
    ensures NextStatus(row.status, Candidate(row, ev)) == row.status
  {
  }

  // ----- A message's whole history -----

  function Candidates(row: Email, evs: seq<SesEvent>): seq<string> {
    if evs == [] then [] else Candidates(row, evs[..|evs| - 1]) + [Candidate(row, evs[|evs| - 1])]
  }

  function After(row: Email, evs: seq<SesEvent>): Email {
    if evs == [] then row
    else
      var r := After(row, evs[..|evs| - 1]);
      r.(status := NextStatus(r.status, Candidate(r, evs[|evs| - 1])))
  }

  /** The status after any sequence of reports is the fold of what each proposes on its own. */
  lemma {:induction false} StatusIsFold(row: Email, evs: seq<SesEvent>)
    ensures After(row, evs) == row.(status := Fold(row.status, Candidates(row, evs)))
  {
    if evs != [] {
      StatusIsFold(row, evs[..|evs| - 1]);
      var cs := Candidates(row, evs);
      assert cs[..|cs| - 1] == Candidates(row, evs[..|evs| - 1]);
      assert Candidate(After(row, evs[..|evs| - 1]), evs[|evs| - 1]) == Candidate(row, evs[|evs| - 1]);
    }
  }

  /** No report from the i-th on ends the message. */
  ghost predicate QuietFrom(row: Email, evs: seq<SesEvent>, i: nat) {
    forall j :: i <= j < |evs| ==> !IsFinal(row, evs[j])
  }

  predicate NoProgressFrom(evs: seq<SesEvent>, i: nat) {
    forall j :: i <= j < |evs| ==> !IsProgress(evs[j])
  }

  /** Over every sequence of reports: the last ending one decides; without any, a message that was over stays as it was, and else the last send or delivery decides. */
  lemma {:induction false} HistoryMeans(row: Email, evs: seq<SesEvent>)
    ensures After(row, evs).toAddrs == row.toAddrs
    ensures forall i, s :: 0 <= i < |evs| && Ends(row, evs[i], s) && QuietFrom(row, evs, i + 1) ==> After(row, evs).status == s
    ensures QuietFrom(row, evs, 0) ==>
              && (Over(row.status) || NoProgressFrom(evs, 0) ==> After(row, evs).status == row.status)
              && (forall i, s :: !Over(row.status) && 0 <= i < |evs| && Moves(evs[i], s) && NoProgressFrom(evs, i + 1) ==> After(row, evs).status == s)
  {
    hide Ends, IsProgress, Moves, Over, Candidate, NextStatus;
    if evs != [] {
      var n := |evs| - 1;
      var front, last := evs[..n], evs[n];
      HistoryMeans(row, front);
      var mid, r := After(row, front), After(row, evs).status;
      ReportLeaves(mid, last);
      SameDestinations(row, mid, last);
      forall i, s | 0 <= i < |evs| && Ends(row, evs[i], s) && QuietFrom(row, evs, i + 1) ensures r == s {
        OneEnd(row, evs[i], s, r);
        if i < n {
          assert front[i] == evs[i] && !IsFinal(row, evs[n]) && QuietFrom(row, front, i + 1);
        }
      }
      if QuietFrom(row, evs, 0) {
        assert !IsFinal(row, evs[n]) && QuietFrom(row, front, 0);
        if NoProgressFrom(evs, 0) { assert !IsProgress(evs[n]) && NoProgressFrom(front, 0); }
        forall i, s | !Over(row.status) && 0 <= i < |evs| && Moves(evs[i], s) && NoProgressFrom(evs, i + 1) ensures r == s {
          NotOverYet(row, front);
          OneMove(evs[i], s, r);
          if i < n {
            assert front[i] == evs[i] && !IsProgress(evs[n]) && NoProgressFrom(front, i + 1);
          }
        }
      }
    }
  }

  lemma SameDestinations(row: Email, mid: Email, ev: SesEvent)
    requires mid.toAddrs == row.toAddrs
    ensures forall s :: Ends(mid, ev, s) <==> Ends(row, ev, s)
    ensures IsFinal(mid, ev) <==> IsFinal(row, ev)
  {
    assert forall named :: Covers(named, mid, ev) <==> Covers(named, row, ev);
    hide Covers;
  }

  lemma OneEnd(row: Email, ev: SesEvent, s: string, other: string)
    requires Ends(row, ev, s)
    ensures Over(s) && (Ends(row, ev, other) ==> other == s)
  {
    hide Covers, ToLower;
    if Ends(row, ev, other) { OneKind(ev); }
  }

  lemma OneKind(ev: SesEvent)
    ensures IsBounce(ev) ==> !IsComplaint(ev) && !IsReject(ev) && !IsSuppressed(ev)
    ensures IsComplaint(ev) ==> !IsReject(ev) && !IsSuppressed(ev)
    ensures IsReject(ev) ==> !IsSuppressed(ev)
    ensures IsSend(ev) ==> !IsDelivery(ev)
  {
    hide ToLower;
  }

  lemma OneMove(ev: SesEvent, s: string, other: string)
    requires Moves(ev, s)
    ensures !Over(s) && IsProgress(ev) && (Moves(ev, other) ==> other == s)
  {
    OneKind(ev);
    hide IsSend, IsDelivery;
  }

  /** A message is over only when some report ended it, and failed only by a rejection. */
  lemma {:induction false} NotOverYet(row: Email, evs: seq<SesEvent>)
    requires !Over(row.status)
    ensures Over(After(row, evs).status) ==> exists i :: 0 <= i < |evs| && Ends(row, evs[i], After(row, evs).status)
  {
    hide Ends, IsProgress, Moves, Over, Candidate, NextStatus;
    if evs != [] {
      var n := |evs| - 1;
      var front, last := evs[..n], evs[n];
      NotOverYet(row, front);
      var mid, r := After(row, front), After(row, evs).status;
      AfterKeepsDestinations(row, front);
      ReportLeaves(mid, last);
      SameDestinations(row, mid, last);
      if Ends(row, last, r) {
      } else if Moves(last, r) {
        OneMove(last, r, r);
      } else if Over(mid.status) {
        var i :| 0 <= i < |front| && Ends(row, front[i], mid.status);
        assert evs[i] == front[i];
      }
    }
  }

  lemma {:induction false} AfterKeepsDestinations(row: Email, evs: seq<SesEvent>)
    ensures After(row, evs).toAddrs == row.toAddrs
  {
    if evs != [] { AfterKeepsDestinations(row, evs[..|evs| - 1]); }
  }

  /** So an open message fails only by a rejection, and bounces or is complained about only by a report on all its destinations. */
  lemma {:induction false} EndedByReport(row: Email, evs: seq<SesEvent>)
    requires !Over(row.status)
    ensures var r := After(row, evs).status;
            && r != "canceled"
            && (r == "failed" ==> exists i :: 0 <= i < |evs| && IsReject(evs[i]))
            && (r == "bounced" ==> exists i :: 0 <= i < |evs| && IsBounce(evs[i]) && evs[i].bounce.Some?
                                              && Covers(evs[i].bounce.value.recipients, row, evs[i]))
            && (r == "complained" ==> exists i :: 0 <= i < |evs| && IsComplaint(evs[i]) && evs[i].complaint.Some?
                                              && Covers(evs[i].complaint.value, row, evs[i]))
  {
    hide Covers, After, IsReject, IsBounce, IsComplaint, IsSuppressed;
    NotOverYet(row, evs);
    var r := After(row, evs).status;
    if Over(r) {
      var i :| 0 <= i < |evs| && Ends(row, evs[i], r);
    }
  }

  // ----- When the order of the reports does not matter -----

  ghost predicate ReportsOrderFree(row: Email, evs: seq<SesEvent>) {
    forall p: seq<SesEvent> :: multiset(p) == multiset(evs) ==> After(row, p) == After(row, evs)
  }

  lemma {:induction false} CandidatesAre(row: Email, evs: seq<SesEvent>)
    ensures |Candidates(row, evs)| == |evs|
    ensures forall i :: 0 <= i < |evs| ==> Candidates(row, evs)[i] == Candidate(row, evs[i])
  {
    hide Candidate;
    if evs != [] { CandidatesAre(row, evs[..|evs| - 1]); }
  }

  lemma {:induction false} CandidatesOfSame(row: Email, p: seq<SesEvent>, evs: seq<SesEvent>)
    requires multiset(p) == multiset(evs)
    ensures forall c :: c in Candidates(row, p) <==> c in Candidates(row, evs)
  {
    hide Candidate, Candidates;
    SameElements(p, evs);
    CandidatesInclude(row, p, evs);
    CandidatesInclude(row, evs, p);
  }

  lemma {:induction false} CandidatesInclude(row: Email, p: seq<SesEvent>, evs: seq<SesEvent>)
    requires forall e :: e in p ==> e in evs
    ensures forall c :: c in Candidates(row, p) ==> c in Candidates(row, evs)
  {
    hide Candidate, Candidates;
    CandidatesAre(row, p);
    CandidatesAre(row, evs);
    forall c | c in Candidates(row, p) ensures c in Candidates(row, evs) {
      var i :| 0 <= i < |p| && Candidates(row, p)[i] == c;
      assert p[i] in evs;
      var j :| 0 <= j < |evs| && evs[j] == p[i];
      assert Candidates(row, evs)[j] == c;
    }
  }

  /** Some order of the reports ends with the one that proposes a. */
  lemma ReportMovedToEnd(row: Email, evs: seq<SesEvent>, a: string) returns (p: seq<SesEvent>)
    requires a in Candidates(row, evs)
    ensures multiset(p) == multiset(evs) && p != []
    ensures |Candidates(row, p)| == |p| && Candidates(row, p)[|p| - 1] == a
  {
    hide Candidate, Candidates;
    CandidatesAre(row, evs);
    var i :| 0 <= i < |evs| && Candidates(row, evs)[i] == a;
    p := evs[..i] + evs[i + 1..] + [evs[i]];
    assert evs == evs[..i] + [evs[i]] + evs[i + 1..];
    CandidatesAre(row, p);
  }

  lemma {:induction false} LastDecides(s: string, cands: seq<string>, a: string)
    requires cands != [] && cands[|cands| - 1] == a && a != ""
    requires IsTerminal(a) || (!HasTerminal(cands) && !IsTerminal(s))
    ensures Fold(s, cands) == a
  {
    FinalStatus(s, cands);
    LastOfMeans(cands, true);
  }

  lemma {:induction false} DisagreeingReports(row: Email, evs: seq<SesEvent>, a: string, b: string)
    requires var cs := Candidates(row, evs);
             && a in cs && b in cs && a != "" && b != "" && a != b && IsTerminal(a) == IsTerminal(b)
             && (IsTerminal(a) || (!HasTerminal(cs) && !IsTerminal(row.status)))
    ensures !ReportsOrderFree(row, evs)
  {
    hide Candidate, Candidates, Fold, IsTerminal, After;
    var pa := ReportMovedToEnd(row, evs, a);
    var pb := ReportMovedToEnd(row, evs, b);
    EndsAt(row, evs, pa, a);
    EndsAt(row, evs, pb, b);
  }

  lemma {:induction false} EndsAt(row: Email, evs: seq<SesEvent>, p: seq<SesEvent>, a: string)
    requires multiset(p) == multiset(evs) && p != [] && a != ""
    requires |Candidates(row, p)| == |p| && Candidates(row, p)[|p| - 1] == a
    requires IsTerminal(a) || (!HasTerminal(Candidates(row, evs)) && !IsTerminal(row.status))
    ensures After(row, p).status == a
  {
    hide Candidate, Candidates, Fold, IsTerminal, After;
    CandidatesOfSame(row, p, evs);
    var cs := Candidates(row, p);
    LastDecides(row.status, cs, a);
    StatusIsFold(row, p);
  }

  /** All orders of the same reports leave the same message exactly when what they propose is settled by the terminal ones. */
  lemma {:induction false} ReportsOrderFreeIff(row: Email, evs: seq<SesEvent>)
    ensures ReportsOrderFree(row, evs) <==> Settled(row.status, Candidates(row, evs))
  {
    hide Candidate, Candidates, Fold, IsTerminal, After;
    var cs := Candidates(row, evs);
    if Settled(row.status, cs) {
      forall p: seq<SesEvent> | multiset(p) == multiset(evs) ensures After(row, p) == After(row, evs) {
        CandidatesOfSame(row, p, evs);
        SettledFold(row.status, Candidates(row, p), cs);
        StatusIsFold(row, p);
        StatusIsFold(row, evs);
      }
    } else if HasTerminal(cs) {
      var a, b :| a in cs && b in cs && a != "" && b != "" && IsTerminal(a) == true && IsTerminal(b) == true && a != b;
      DisagreeingReports(row, evs, a, b);
    } else {
      var a, b :| a in cs && b in cs && a != "" && b != "" && IsTerminal(a) == false && IsTerminal(b) == false && a != b;
      DisagreeingReports(row, evs, a, b);
    }
  }
}
