/**
  Who may be mailed: the suppression list, the contacts' global unsubscribe flag and the topic subscriptions of
  one team. Each SQL statement is one step, so that runs of concurrent requests are sequences of statements.
 */
module Consent {
  import opened Text

  type ContactId = nat
  type TopicId = nat

  datatype Contact = Contact(email: string, unsubscribed: bool)

  datatype Db = Db(suppressions: map<string, string>, contacts: map<ContactId, Contact>, topicSubs: map<(TopicId, ContactId), bool>)

  predicate Hard(reason: string) { reason == "bounce" || reason == "complaint" }

  datatype Stmt =
    | UpsertReason(email: string, reason: string)             // a report or a manual entry: hard reasons win
    | UpsertUnsubscribe(email: string)                        // an opt-out never softens a hard reason
    | DropUnsubscribe(email: string)                          // a resubscribe lifts only opt-outs
    | RemoveRow(email: string)
    | InsertContact(id: ContactId, email: string)
    | SetUnsubscribed(id: ContactId, value: bool)
    | SetUnsubscribedByEmail(email: string)
    | DeleteRow(id: ContactId)
    | LeaveTopic(topic: TopicId, email: string)
    | SetTopic(topic: TopicId, id: ContactId, subscribed: bool)

  function Merged(prior: Option<string>, reason: string): string {
    if Hard(reason) then reason
    else if prior.Some? && Hard(prior.value) then prior.value
    else reason
  }

  function ReasonOf(db: Db, email: string): Option<string> {
    if email in db.suppressions then Some(db.suppressions[email]) else None
  }

  predicate HasContact(db: Db, email: string) {
    exists id :: id in db.contacts && db.contacts[id].email == email
  }

  function Apply(db: Db, s: Stmt): Db {
    match s
    case UpsertReason(e, reason) => db.(suppressions := db.suppressions[e := Merged(ReasonOf(db, e), reason)])
    case UpsertUnsubscribe(e) => db.(suppressions := db.suppressions[e := Merged(ReasonOf(db, e), "unsubscribe")])
    case DropUnsubscribe(e) =>
      if ReasonOf(db, e) == Some("unsubscribe") then db.(suppressions := db.suppressions - {e}) else db
    case RemoveRow(e) => db.(suppressions := db.suppressions - {e})
    case InsertContact(id, e) =>
      if HasContact(db, e) || id in db.contacts then db else db.(contacts := db.contacts[id := Contact(e, false)])
    case SetUnsubscribed(id, value) =>
      if id in db.contacts then db.(contacts := db.contacts[id := db.contacts[id].(unsubscribed := value)]) else db
    case SetUnsubscribedByEmail(e) =>
      db.(contacts := map id | id in db.contacts ::
        if db.contacts[id].email == e then db.contacts[id].(unsubscribed := true) else db.contacts[id])
    case DeleteRow(id) =>
      db.(contacts := db.contacts - {id}, topicSubs := map k | k in db.topicSubs && k.1 != id :: db.topicSubs[k])
    case LeaveTopic(topic, e) =>
      db.(topicSubs := db.topicSubs + map id | id in db.contacts && db.contacts[id].email == e :: (topic, id) := false)
    case SetTopic(topic, id, subscribed) =>
      if id in db.contacts then db.(topicSubs := db.topicSubs[(topic, id) := subscribed]) else db
  }

  function Exec(db: Db, stmts: seq<Stmt>): Db {
    if stmts == [] then db else Apply(Exec(db, stmts[..|stmts| - 1]), stmts[|stmts| - 1])
  }

  /** The unique key on contact addresses. */
  ghost predicate UniqueEmails(db: Db) {
    forall i, j :: i in db.contacts && j in db.contacts && db.contacts[i].email == db.contacts[j].email ==> i == j
  }

  lemma ApplyKeepsUnique(db: Db, s: Stmt)
    requires UniqueEmails(db)
    ensures UniqueEmails(Apply(db, s))
  {
  }

  lemma {:induction false} ExecKeepsUnique(db: Db, stmts: seq<Stmt>)
    requires UniqueEmails(db)
    ensures UniqueEmails(Exec(db, stmts))
  {
    hide Apply, UniqueEmails;
    if stmts != [] {
      ExecKeepsUnique(db, stmts[..|stmts| - 1]);
      ApplyKeepsUnique(Exec(db, stmts[..|stmts| - 1]), stmts[|stmts| - 1]);
    }
  }

  // ----- Being mailed -----

  predicate GloballyOut(db: Db, email: string) {
    exists id :: id in db.contacts && db.contacts[id].email == email && db.contacts[id].unsubscribed
  }

  /** What the send request checks for each recipient. */
  predicate Blocked(db: Db, email: string) {
    email in db.suppressions || GloballyOut(db, email)
  }

  datatype Topic = Topic(id: TopicId, optOut: bool)

  /** Effective subscription: the explicit row, else the topic's default. */
  function Subscribed(db: Db, topic: Topic, id: ContactId): bool {
    if (topic.id, id) in db.topicSubs then db.topicSubs[(topic.id, id)] else topic.optOut
  }

  /** The three audience queries in one: everybody, a segment, a topic with or without a segment. */
  function Audience(db: Db, topic: Option<Topic>, segment: Option<set<ContactId>>): set<string> {
    set id | id in db.contacts
             && !db.contacts[id].unsubscribed
             && db.contacts[id].email !in db.suppressions
             && (topic.Some? ==> Subscribed(db, topic.value, id))
             && (segment.Some? ==> id in segment.value)
      :: db.contacts[id].email
  }

  datatype Standing = Standing(topic: TopicId, subscribed: bool, explicit: bool)

  function StandingOf(db: Db, topic: Topic, id: ContactId): Standing {
    Standing(topic.id, Subscribed(db, topic, id), (topic.id, id) in db.topicSubs)
  }

  lemma StandingIsMembership(db: Db, topic: Topic, id: ContactId)
    requires UniqueEmails(db) && id in db.contacts && !Blocked(db, db.contacts[id].email)
    ensures StandingOf(db, topic, id).subscribed <==> db.contacts[id].email in Audience(db, Some(topic), None)
  {
  }

  lemma BlockedIsInNoAudience(db: Db, email: string)
    requires UniqueEmails(db) && Blocked(db, email)
    ensures forall topic, segment :: email !in Audience(db, topic, segment)
  {
  }

  /** A contact's address is in an audience exactly when no send to it is refused and it is in the topic and in the segment. */
  lemma InAudienceIff(db: Db, id: ContactId, topic: Option<Topic>, segment: Option<set<ContactId>>)
    requires UniqueEmails(db) && id in db.contacts
    ensures db.contacts[id].email in Audience(db, topic, segment) <==>
              && !Blocked(db, db.contacts[id].email)
              && (topic.Some? ==> var k := (topic.value.id, id); if k in db.topicSubs then db.topicSubs[k] else topic.value.optOut)
              && (segment.Some? ==> id in segment.value)
  {
  }

  /** A segment's audience is what it shares with everybody's, and two segments together reach what either does. */
  lemma SegmentsAddUp(db: Db, topic: Option<Topic>, a: set<ContactId>, b: set<ContactId>)
    ensures Audience(db, topic, Some(a + b)) == Audience(db, topic, Some(a)) + Audience(db, topic, Some(b))
    ensures Audience(db, topic, Some(db.contacts.Keys)) == Audience(db, topic, None)
    ensures Audience(db, topic, Some({})) == {}
  {
  }

  /** No recipient is suppressed or globally opted out, in the form in which a send looks addresses up. */
  ghost predicate SendAllowed(db: Db, addrs: seq<string>, normalize: string -> string) {
    forall a :: a in addrs ==> !Blocked(db, normalize(a))
  }

  method SendCheck(db: Db, addrs: seq<string>, normalize: string -> string) returns (refused: Option<string>)
    ensures refused.None? <==> SendAllowed(db, addrs, normalize)
    ensures refused.Some? ==> Blocked(db, refused.value) && exists a :: a in addrs && refused.value == normalize(a)
  {
    for i := 0 to |addrs|
      invariant forall a :: a in addrs[..i] ==> !Blocked(db, normalize(a))
    {
      var e := normalize(addrs[i]);
      if e in db.suppressions {
        return Some(e);
      }
      if exists id :: id in db.contacts && db.contacts[id].email == e && db.contacts[id].unsubscribed {
        return Some(e);
      }
    }
    assert addrs[..|addrs|] == addrs;
    return None;
  }

  // ----- Over whole runs -----

  /** A bounce or a complaint stays one of the two until the row is removed by hand. */
  lemma {:induction false} HardReasonStays(db: Db, stmts: seq<Stmt>, e: string)
    requires ReasonOf(db, e).Some? && Hard(ReasonOf(db, e).value) && RemoveRow(e) !in stmts
    ensures ReasonOf(Exec(db, stmts), e).Some? && Hard(ReasonOf(Exec(db, stmts), e).value)
  {
    if stmts != [] {
      var last := stmts[|stmts| - 1];
      assert last in stmts;
      HardReasonStays(db, stmts[..|stmts| - 1], e);
    }
  }

  /** Any suppression stays until it is removed by hand or lifted by a resubscribe. */
  lemma {:induction false} SuppressionStays(db: Db, stmts: seq<Stmt>, e: string)
    requires e in db.suppressions && RemoveRow(e) !in stmts && DropUnsubscribe(e) !in stmts
    ensures e in Exec(db, stmts).suppressions
  {
    if stmts != [] {
      assert stmts[|stmts| - 1] in stmts;
      SuppressionStays(db, stmts[..|stmts| - 1], e);
    }
  }

  predicate Names(db: Db, id: ContactId, e: string) { id in db.contacts && db.contacts[id].email == e }

  /** The statement, run in this state, clears the flag of e's contact. */
  predicate ClearsFlag(db: Db, s: Stmt, e: string) { s.SetUnsubscribed? && !s.value && Names(db, s.id, e) }

  predicate DeletesContact(db: Db, s: Stmt, e: string) { s.DeleteRow? && Names(db, s.id, e) }

  ghost predicate Resubscribed(db: Db, stmts: seq<Stmt>, e: string) {
    || DropUnsubscribe(e) in stmts
    || exists i :: 0 <= i < |stmts| && ClearsFlag(Exec(db, stmts[..i]), stmts[i], e)
  }

  ghost predicate ContactDeleted(db: Db, stmts: seq<Stmt>, e: string) {
    exists i :: 0 <= i < |stmts| && DeletesContact(Exec(db, stmts[..i]), stmts[i], e)
  }

  lemma FlagStaysOneStep(db: Db, s: Stmt, e: string)
    requires GloballyOut(db, e) && !ClearsFlag(db, s, e) && !DeletesContact(db, s, e)
    ensures GloballyOut(Apply(db, s), e)
  {
    var id :| id in db.contacts && db.contacts[id].email == e && db.contacts[id].unsubscribed;
    var after := Apply(db, s);
    assert id in after.contacts && after.contacts[id] == db.contacts[id];
  }

  lemma {:induction false} FlagStays(db: Db, stmts: seq<Stmt>, e: string)
    requires GloballyOut(db, e) && UniqueEmails(db)
    requires !Resubscribed(db, stmts, e) && !ContactDeleted(db, stmts, e)
    ensures GloballyOut(Exec(db, stmts), e)
  {
    hide Apply, GloballyOut, ClearsFlag, DeletesContact;
    if stmts != [] {
      var front, last := stmts[..|stmts| - 1], stmts[|stmts| - 1];
      var mid := Exec(db, front);
      forall i | 0 <= i < |front|
        ensures !ClearsFlag(Exec(db, front[..i]), front[i], e) && !DeletesContact(Exec(db, front[..i]), front[i], e)
      {
        assert front[..i] == stmts[..i] && front[i] == stmts[i];
      }
      FlagStays(db, front, e);
      assert !ClearsFlag(mid, last, e) && !DeletesContact(mid, last, e);
      FlagStaysOneStep(mid, last, e);
    }
  }

  /**
    An address that opted out while it had a contact is refused by every send, and is in no audience, until it
    resubscribes, or until both its suppression is removed and its contact deleted.
   */
  lemma {:induction false} OptOutStays(db: Db, stmts: seq<Stmt>, e: string)
    requires UniqueEmails(db) && e in db.suppressions && GloballyOut(db, e)
    requires !Resubscribed(db, stmts, e)
    requires !(RemoveRow(e) in stmts && ContactDeleted(db, stmts, e))
    ensures Blocked(Exec(db, stmts), e)
    ensures forall topic, segment :: e !in Audience(Exec(db, stmts), topic, segment)
  {
    if RemoveRow(e) in stmts {
      FlagStays(db, stmts, e);
    } else {
      SuppressionStays(db, stmts, e);
    }
    ExecKeepsUnique(db, stmts);
    BlockedIsInNoAudience(Exec(db, stmts), e);
  }

  /** Neither of the two undoings can be left out: together, with the contact created anew, they reopen the address. */
  lemma {:induction false} BothUndoingsReopen(db: Db, id: ContactId, e: string)
    requires UniqueEmails(db) && Names(db, id, e)
    ensures var r := Exec(db, [RemoveRow(e), DeleteRow(id), InsertContact(id, e)]);
            !Blocked(r, e) && e in Audience(r, None, None)
  {
    var stmts := [RemoveRow(e), DeleteRow(id), InsertContact(id, e)];
    assert stmts[..2] == [RemoveRow(e), DeleteRow(id)] && stmts[..2][..1] == [RemoveRow(e)] && stmts[..2][..1][..0] == [];
    var d1 := Apply(Exec(db, []), RemoveRow(e));
    assert Exec(db, stmts[..2][..1]) == d1;
    var d2 := Apply(d1, DeleteRow(id));
    assert Exec(db, stmts[..2]) == d2;
    assert !HasContact(d2, e);
    var r := Apply(d2, InsertContact(id, e));
    assert Exec(db, stmts) == r && r.contacts[id] == Contact(e, false);
  }

  /** Leaving a topic takes the address out of that topic's audience and changes no other audience and no send check. */
  lemma LeavingATopic(db: Db, topic: Topic, e: string, segment: Option<set<ContactId>>)
    requires UniqueEmails(db)
    ensures var r := Apply(db, LeaveTopic(topic.id, e));
            && Audience(r, Some(topic), segment) == Audience(db, Some(topic), segment) - {e}
            && Audience(r, None, segment) == Audience(db, None, segment)
            && (forall other: Topic :: other.id != topic.id ==> Audience(r, Some(other), segment) == Audience(db, Some(other), segment))
            && (forall x :: Blocked(r, x) == Blocked(db, x))
  {
    assert LeftTopic(db, db, topic.id, {});
    hide Apply, LeftTopic, Audience, Blocked;
    LeftTopicStep(db, db, topic.id, {}, e);
    assert {} + {e} == {e};
    LeftTopicAudience(db, Apply(db, LeaveTopic(topic.id, e)), topic, {e}, segment);
  }

  // ----- The services -----

  class ConsentStore {
    var db: Db

    constructor ()
      ensures db == Db(map[], map[], map[])
    {
      db := Db(map[], map[], map[]);
    }

    /** A hard reason replaces any other; otherwise the reason given is stored, unless a hard one is there already. */
    method Add(email: string, reason: string) returns (ok: bool)
      modifies this
      ensures ok <==> ToLower(TrimSpace(email)) != ""
      ensures db == if !ok then old(db)
                    else Apply(old(db), EntryOf(email, reason))
      ensures ok ==> Recorded(old(db), db, {ToLower(TrimSpace(email))}, reason)
    {
      hide Merged;
      RecordedOne(db, email, reason);
      var e := ToLower(TrimSpace(email));
      ok := e != "";
      if ok {
        db := Apply(db, UpsertReason(e, if reason == "" then "manual" else reason));
      }
    }

    method AddBatch(emails: seq<string>, reason: string) returns (n: Option<nat>)
      modifies this
      ensures |emails| > 100 ==> n.None? && db == old(db)
      ensures |emails| <= 100 ==> n.Some? && db == Exec(old(db), BatchStmts(emails, reason)) && n.value == |BatchStmts(emails, reason)|
      ensures n.Some? ==> Recorded(old(db), db, Listed(emails), reason) && n.value == |Kept(emails)|
    {
      hide Recorded, Exec, Apply;
      BatchMeans(db, emails, reason);
      ExecNothing(db);
      if |emails| > 100 {
        return None;
      }
      var count := 0;
      for i := 0 to |emails|
        invariant db == Exec(old(db), BatchStmts(emails[..i], reason)) && count == |BatchStmts(emails[..i], reason)|
      {
        assert emails[..i + 1][..i] == emails[..i];
        ExecOne(old(db), BatchStmts(emails[..i], reason), EntryOf(emails[i], reason));
        var ok := Add(emails[i], reason);
        if ok {
          count := count + 1;
        }
      }
      assert emails[..|emails|] == emails;
      return Some(count);
    }

    /** After it a send to the address is refused only because its contact opted out. */
    method Remove(email: string) returns (found: bool)
      modifies this
      ensures found <==> ToLower(email) in old(db).suppressions
      ensures !found ==> db == old(db)
      ensures ToLower(email) !in db.suppressions
      ensures forall e :: e != ToLower(email) ==> ReasonOf(db, e) == ReasonOf(old(db), e)
      ensures db.contacts == old(db).contacts && db.topicSubs == old(db).topicSubs
      ensures Blocked(db, ToLower(email)) <==> GloballyOut(old(db), ToLower(email))
      ensures db == Apply(old(db), RemoveRow(ToLower(email)))
    {
      var e := ToLower(email);
      found := e in db.suppressions;
      if found {
        db := db.(suppressions := map x | x in db.suppressions && x != e :: db.suppressions[x]);
      }
      assert db.suppressions == old(db).suppressions - {e};
    }

    method CreateContact(id: ContactId, email: string) returns (ok: bool)
      requires UniqueEmails(db) && id !in db.contacts
      modifies this
      ensures UniqueEmails(db)
      ensures ok <==> ToLower(TrimSpace(email)) != ""
      ensures ok ==> HasContact(db, ToLower(TrimSpace(email)))
      ensures db.suppressions == old(db).suppressions && db.topicSubs == old(db).topicSubs
      ensures db.contacts == if ok && !HasContact(old(db), ToLower(TrimSpace(email)))
                             then old(db).contacts[id := Contact(ToLower(TrimSpace(email)), false)] else old(db).contacts
      ensures db == if ok then Apply(old(db), InsertContact(id, ToLower(TrimSpace(email)))) else old(db)
    {
      var e := ToLower(TrimSpace(email));
      ok := e != "";
      if ok {
        db := Apply(db, InsertContact(id, e));
        assert HasContact(old(db), e) || Names(db, id, e);
      }
    }

    /** Setting the flag and the suppression row are two statements; the second only for a contact with an address. */
    method UpdateContact(id: ContactId, unsubscribed: Option<bool>)
      modifies this
      ensures unsubscribed.None? || id !in old(db).contacts ==> db == old(db)
      ensures unsubscribed.Some? && id in old(db).contacts ==>
                var e, flag := old(db).contacts[id].email, unsubscribed.value;
                var prior := ReasonOf(old(db), e);
                && db.contacts == old(db).contacts[id := Contact(e, flag)] && db.topicSubs == old(db).topicSubs
                && (forall x :: x != e || e == "" ==> ReasonOf(db, x) == ReasonOf(old(db), x))
                && (e != "" && flag ==> ReasonOf(db, e) == Some(Merged(prior, "unsubscribe")))
                && (e != "" && !flag ==> ReasonOf(db, e) == if prior == Some("unsubscribe") then None else prior)
                && (e != "" ==> db == Apply(Apply(old(db), SetUnsubscribed(id, flag)),
                                            if flag then UpsertUnsubscribe(e) else DropUnsubscribe(e)))
    {
      if unsubscribed.Some? {
        var flag := unsubscribed.value;
        db := Apply(db, SetUnsubscribed(id, flag));
        if id in db.contacts && db.contacts[id].email != "" {
          var e := db.contacts[id].email;
          db := Apply(db, if flag then UpsertUnsubscribe(e) else DropUnsubscribe(e));
        }
      }
    }

    /** With the contact go its flag and its topic rows: what still refuses a send to its address is a suppression. */
    method DeleteContact(id: ContactId) returns (found: bool)
      modifies this
      ensures found <==> id in old(db).contacts
      ensures !found ==> db.contacts == old(db).contacts
      ensures db.contacts.Keys == old(db).contacts.Keys - {id}
      ensures forall c :: c in db.contacts ==> db.contacts[c] == old(db).contacts[c]
      ensures forall k :: k in db.topicSubs <==> k in old(db).topicSubs && k.1 != id
      ensures forall k :: k in db.topicSubs ==> db.topicSubs[k] == old(db).topicSubs[k]
      ensures db.suppressions == old(db).suppressions
      ensures found && UniqueEmails(old(db)) ==>
                var e := old(db).contacts[id].email;
                !HasContact(db, e) && (Blocked(db, e) <==> e in db.suppressions)
      ensures db == Apply(old(db), DeleteRow(id))
    {
      found := id in db.contacts;
      var topics := map k | k in db.topicSubs && k.1 != id :: db.topicSubs[k];
      db := db.(contacts := map c | c in db.contacts && c != id :: db.contacts[c], topicSubs := topics);
      assert db.contacts == old(db).contacts - {id};
    }

    /** Every topic with the contact's standing; for a contact that may be mailed it says what a topic broadcast would do. */
    method ListContactTopics(id: ContactId, topics: seq<Topic>) returns (listed: Option<seq<Standing>>)
      ensures listed.None? <==> id !in db.contacts
      ensures listed.Some? ==> |listed.value| == |topics|
      ensures listed.Some? ==> forall i :: 0 <= i < |topics| ==>
                listed.value[i] == var row := (topics[i].id, id) in db.topicSubs;
                                   Standing(topics[i].id, if row then db.topicSubs[(topics[i].id, id)] else topics[i].optOut, row)
      ensures listed.Some? && UniqueEmails(db) && !Blocked(db, db.contacts[id].email) ==>
                forall i :: 0 <= i < |topics| ==>
                  (listed.value[i].subscribed <==> db.contacts[id].email in Audience(db, Some(topics[i]), None))
    {
      if id !in db.contacts {
        return None;
      }
      var out: seq<Standing> := [];
      for i := 0 to |topics|
        invariant |out| == i && forall k :: 0 <= k < i ==> out[k] == StandingOf(db, topics[k], id)
      {
        var row := (topics[i].id, id) in db.topicSubs;
        out := out + [Standing(topics[i].id, if row then db.topicSubs[(topics[i].id, id)] else topics[i].optOut, row)];
      }
      if UniqueEmails(db) && !Blocked(db, db.contacts[id].email) {
        forall i | 0 <= i < |topics|
          ensures out[i].subscribed <==> db.contacts[id].email in Audience(db, Some(topics[i]), None)
        {
          StandingIsMembership(db, topics[i], id);
        }
      }
      return Some(out);
    }

    /** `known` is whether the topic is one of the team's. */
    method SetTopicSubscription(id: ContactId, topic: Topic, subscribed: bool, known: bool) returns (ok: bool)
      modifies this
      ensures ok <==> known && id in db.contacts
      ensures db == if ok then Apply(old(db), SetTopic(topic.id, id, subscribed)) else old(db)
      ensures db.contacts == old(db).contacts && db.suppressions == old(db).suppressions
      ensures forall t: Topic, c: ContactId :: (t.id, c) != (topic.id, id) ==> Subscribed(db, t, c) == Subscribed(old(db), t, c)
      ensures ok && UniqueEmails(db) ==>
                var e := db.contacts[id].email;
                e in Audience(db, Some(topic), None) <==> subscribed && !Blocked(db, e)
    {
      ok := known && id in db.contacts;
      if ok {
        db := db.(topicSubs := db.topicSubs[(topic.id, id) := subscribed]);
      }
    }

    /** The one-click request, for the addresses its token resolved to. */
    method HandleUnsubscribe(targets: seq<string>, topic: Option<TopicId>)
      modifies this
      ensures db == Exec(old(db), UnsubscribeStmts(targets, topic))
      ensures topic.Some? ==> LeftTopic(old(db), db, topic.value, Lowered(targets))
      ensures topic.None? ==> OptedOut(old(db), db, Lowered(targets))
    {
      hide LeftTopic, OptedOut, Apply, Exec;
      UnsubscribeMeans(db, targets, topic);
      ExecNothing(db);
      for i := 0 to |targets|
        invariant db == Exec(old(db), UnsubscribeStmts(targets[..i], topic))
      {
        assert targets[..i + 1][..i] == targets[..i];
        var a := ToLower(targets[i]);
        ghost var before := UnsubscribeStmts(targets[..i], topic);
        if topic.Some? {
          db := Apply(db, LeaveTopic(topic.value, a));
          ExecOne(old(db), before, LeaveTopic(topic.value, a));
        } else {
          db := Apply(db, SetUnsubscribedByEmail(a));
          db := Apply(db, UpsertUnsubscribe(a));
          ExecOne(old(db), before, SetUnsubscribedByEmail(a));
          ExecOne(old(db), before + [SetUnsubscribedByEmail(a)], UpsertUnsubscribe(a));
          assert before + [SetUnsubscribedByEmail(a)] + [UpsertUnsubscribe(a)] == before + [SetUnsubscribedByEmail(a), UpsertUnsubscribe(a)];
        }
      }
      assert targets[..|targets|] == targets;
    }
  }

  function BatchStmts(emails: seq<string>, reason: string): seq<Stmt> {
    if emails == [] then []
    else
      var entry := EntryOf(emails[|emails| - 1], reason);
      BatchStmts(emails[..|emails| - 1], reason) + if entry.email == "" then [] else [entry]
  }

  function EntryOf(email: string, reason: string): Stmt {
    UpsertReason(ToLower(TrimSpace(email)), if reason == "" then "manual" else reason)
  }

  // ----- What an entry changes -----

  /** These addresses have this reason, unless a hard one stood there and the new one is none; nothing else is different. */
  ghost predicate Recorded(was: Db, now: Db, es: set<string>, reason: string) {
    && now.contacts == was.contacts && now.topicSubs == was.topicSubs
    && now.suppressions.Keys == was.suppressions.Keys + es
    && (forall e :: e in now.suppressions ==>
          now.suppressions[e] ==
            if e !in es then was.suppressions[e]
            else if reason !in {"bounce", "complaint"} && e in was.suppressions && was.suppressions[e] in {"bounce", "complaint"}
            then was.suppressions[e]
            else if reason == "" then "manual" else reason)
  }

  lemma RecordedOne(db: Db, email: string, reason: string)
    ensures Recorded(db, Apply(db, EntryOf(email, reason)), {ToLower(TrimSpace(email))}, reason)
  {
  }

  lemma RecordedStep(was: Db, mid: Db, es: set<string>, reason: string, email: string)
    requires Recorded(was, mid, es, reason)
    ensures Recorded(was, Apply(mid, EntryOf(email, reason)), es + {ToLower(TrimSpace(email))}, reason)
  {
  }

  /** The addresses of a list that are not blank, in their stored form. */
  function Kept(emails: seq<string>): seq<string> {
    if emails == [] then []
    else Kept(emails[..|emails| - 1]) + if ToLower(TrimSpace(emails[|emails| - 1])) == "" then [] else [ToLower(TrimSpace(emails[|emails| - 1]))]
  }

  function Elements(list: seq<string>): set<string> { set e | e in list }

  function Listed(emails: seq<string>): set<string> { Elements(Kept(emails)) }

  lemma ListedMore(list: seq<string>, e: string)
    ensures Elements(list + [e]) == Elements(list) + {e}
  {
  }

  lemma {:induction false} BatchMeans(db: Db, emails: seq<string>, reason: string)
    ensures Recorded(db, Exec(db, BatchStmts(emails, reason)), Listed(emails), reason)
    ensures |BatchStmts(emails, reason)| == |Kept(emails)|
  {
    hide Apply, Exec, Recorded, Elements, TrimSpace, ToLower;
    if emails == [] {
      NothingRecorded(db, reason);
    } else {
      var n := |emails| - 1;
      var e := ToLower(TrimSpace(emails[n]));
      var before := BatchStmts(emails[..n], reason);
      BatchMeans(db, emails[..n], reason);
      if e == "" {
        assert BatchStmts(emails, reason) == before && Kept(emails) == Kept(emails[..n]);
      } else {
        ExecOne(db, before, EntryOf(emails[n], reason));
        RecordedStep(db, Exec(db, before), Listed(emails[..n]), reason, emails[n]);
        ListedMore(Kept(emails[..n]), e);
      }
    }
  }

  lemma {:induction false} NothingRecorded(db: Db, reason: string)
    ensures Recorded(db, Exec(db, []), Listed([]), reason)
  {
  }

  lemma {:induction false} ExecNothing(db: Db)
    ensures Exec(db, []) == db
  {
  }

  lemma {:induction false} ExecOne(db: Db, stmts: seq<Stmt>, s: Stmt)
    ensures Exec(db, stmts + [s]) == Apply(Exec(db, stmts), s)
    ensures stmts + [] == stmts
  {
    assert (stmts + [s])[..|stmts|] == stmts;
  }

  function UnsubscribeStmts(targets: seq<string>, topic: Option<TopicId>): seq<Stmt> {
    if targets == [] then []
    else
      var a := ToLower(targets[|targets| - 1]);
      UnsubscribeStmts(targets[..|targets| - 1], topic)
      + if topic.Some? then [LeaveTopic(topic.value, a)] else [SetUnsubscribedByEmail(a), UpsertUnsubscribe(a)]
  }

  function Lowered(targets: seq<string>): set<string> {
    set i | 0 <= i < |targets| :: ToLower(targets[i])
  }

  lemma LoweredStep(targets: seq<string>)
    requires targets != []
    ensures Lowered(targets) == Lowered(targets[..|targets| - 1]) + {ToLower(targets[|targets| - 1])}
  {
    var n := |targets| - 1;
    forall e | e in Lowered(targets[..n]) ensures e in Lowered(targets) {
      var i :| 0 <= i < n && ToLower(targets[..n][i]) == e;
      assert ToLower(targets[i]) == e;
    }
    forall e | e in Lowered(targets) && e != ToLower(targets[n]) ensures e in Lowered(targets[..n]) {
      var i :| 0 <= i < |targets| && ToLower(targets[i]) == e;
      assert ToLower(targets[..n][i]) == e;
    }
  }

  /** The contacts of these addresses have left the topic, and nothing else is different. */
  ghost predicate LeftTopic(was: Db, now: Db, topic: TopicId, es: set<string>) {
    && now.suppressions == was.suppressions && now.contacts == was.contacts
    && (forall k :: k in now.topicSubs <==> k in was.topicSubs || LeavesRow(was, topic, es, k))
    && (forall k :: k in now.topicSubs ==>
          now.topicSubs[k] == if LeavesRow(was, topic, es, k) then false else was.topicSubs[k])
  }

  predicate LeavesRow(db: Db, topic: TopicId, es: set<string>, k: (TopicId, ContactId)) {
    k.0 == topic && k.1 in db.contacts && db.contacts[k.1].email in es
  }

  /** These addresses are suppressed and their contacts flagged, a hard reason is kept, and nothing else is different. */
  ghost predicate OptedOut(was: Db, now: Db, es: set<string>) {
    && now.topicSubs == was.topicSubs
    && now.contacts.Keys == was.contacts.Keys
    && (forall id :: id in was.contacts ==>
          now.contacts[id] == Contact(was.contacts[id].email, was.contacts[id].unsubscribed || was.contacts[id].email in es))
    && now.suppressions.Keys == was.suppressions.Keys + es
    && (forall e :: e in now.suppressions ==>
          now.suppressions[e] ==
            if e !in es then was.suppressions[e]
            else if e in was.suppressions && was.suppressions[e] in {"bounce", "complaint"} then was.suppressions[e]
            else "unsubscribe")
  }

  lemma LeftTopicStep(was: Db, mid: Db, topic: TopicId, es: set<string>, e: string)
    requires LeftTopic(was, mid, topic, es)
    ensures LeftTopic(was, Apply(mid, LeaveTopic(topic, e)), topic, es + {e})
  {
  }

  lemma OptedOutStep(was: Db, mid: Db, es: set<string>, e: string)
    requires OptedOut(was, mid, es)
    ensures OptedOut(was, Apply(Apply(mid, SetUnsubscribedByEmail(e)), UpsertUnsubscribe(e)), es + {e})
  {
  }

  /** What the statements of a one-click request come to, for any list of targets. */
  lemma {:induction false} UnsubscribeMeans(db: Db, targets: seq<string>, topic: Option<TopicId>)
    ensures topic.Some? ==> LeftTopic(db, Exec(db, UnsubscribeStmts(targets, topic)), topic.value, Lowered(targets))
    ensures topic.None? ==> OptedOut(db, Exec(db, UnsubscribeStmts(targets, topic)), Lowered(targets))
  {
    hide Apply, Exec, LeftTopic, OptedOut, Lowered;
    if targets == [] {
      NoTargets(db, topic);
    } else {
      var n := |targets| - 1;
      var a, before := ToLower(targets[n]), UnsubscribeStmts(targets[..n], topic);
      UnsubscribeMeans(db, targets[..n], topic);
      LoweredStep(targets);
      var mid := Exec(db, before);
      if topic.Some? {
        ExecOne(db, before, LeaveTopic(topic.value, a));
        LeftTopicStep(db, mid, topic.value, Lowered(targets[..n]), a);
      } else {
        ExecTwo(db, before, SetUnsubscribedByEmail(a), UpsertUnsubscribe(a));
        OptedOutStep(db, mid, Lowered(targets[..n]), a);
      }
    }
  }

  lemma {:induction false} NoTargets(db: Db, topic: Option<TopicId>)
    ensures topic.Some? ==> LeftTopic(db, Exec(db, UnsubscribeStmts([], topic)), topic.value, Lowered([]))
    ensures topic.None? ==> OptedOut(db, Exec(db, UnsubscribeStmts([], topic)), Lowered([]))
  {
  }

  lemma {:induction false} ExecTwo(db: Db, stmts: seq<Stmt>, s: Stmt, t: Stmt)
    ensures Exec(db, stmts + [s, t]) == Apply(Apply(Exec(db, stmts), s), t)
  {
    ExecOne(db, stmts, s);
    ExecOne(db, stmts + [s], t);
    assert stmts + [s] + [t] == stmts + [s, t];
  }

  /** Then that topic's audience loses exactly the targets; every other audience and every send check is as before. */
  lemma LeftTopicAudience(was: Db, now: Db, topic: Topic, es: set<string>, segment: Option<set<ContactId>>)
    requires LeftTopic(was, now, topic.id, es)
    ensures UniqueEmails(was) ==> Audience(now, Some(topic), segment) == Audience(was, Some(topic), segment) - es
    ensures Audience(now, None, segment) == Audience(was, None, segment)
    ensures forall other: Topic :: other.id != topic.id ==> Audience(now, Some(other), segment) == Audience(was, Some(other), segment)
    ensures forall x :: Blocked(now, x) == Blocked(was, x)
  {
    forall id | id in was.contacts
      ensures Subscribed(now, topic, id) == (Subscribed(was, topic, id) && was.contacts[id].email !in es)
    {
      assert (topic.id, id) in now.topicSubs <==> (topic.id, id) in was.topicSubs || LeavesRow(was, topic.id, es, (topic.id, id));
    }
    forall other: Topic, id | other.id != topic.id && id in was.contacts
      ensures Subscribed(now, other, id) == Subscribed(was, other, id)
    {
      assert (other.id, id) in now.topicSubs <==> (other.id, id) in was.topicSubs;
    }
  }

  /** Exactly the targets become blocked that were not, and all audiences lose exactly them. */
  lemma OptedOutAudience(was: Db, now: Db, es: set<string>, topic: Option<Topic>, segment: Option<set<ContactId>>)
    requires OptedOut(was, now, es)
    ensures forall x :: Blocked(now, x) <==> Blocked(was, x) || x in es
    ensures Audience(now, topic, segment) == Audience(was, topic, segment) - es
  {
    assert topic.Some? ==> forall id :: Subscribed(now, topic.value, id) == Subscribed(was, topic.value, id);
    forall x ensures GloballyOut(now, x) <==> GloballyOut(was, x) || (x in es && HasContact(was, x)) {
    }
  }

  /** A global one-click leaves the address suppressed, and its contact, if it has one, flagged. */
  lemma {:induction false} OneClickOptsOut(db: Db, target: string)
    ensures var e, r := ToLower(target), Exec(db, UnsubscribeStmts([target], None));
            e in r.suppressions && (HasContact(db, e) ==> GloballyOut(r, e))
  {
    var e := ToLower(target);
    assert [target][..0] == [];
    var d1 := Apply(db, SetUnsubscribedByEmail(e));
    ExecOne(db, [], SetUnsubscribedByEmail(e));
    ExecOne(db, [SetUnsubscribedByEmail(e)], UpsertUnsubscribe(e));
    assert [] + [SetUnsubscribedByEmail(e)] == [SetUnsubscribedByEmail(e)];
    assert UnsubscribeStmts([target], None) == [SetUnsubscribedByEmail(e)] + [UpsertUnsubscribe(e)];
    if HasContact(db, e) {
      var id :| id in db.contacts && db.contacts[id].email == e;
      assert d1.contacts[id] == Contact(e, true);
    }
  }
}
