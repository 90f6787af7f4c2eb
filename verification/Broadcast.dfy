/**
  Broadcasts: the status row that the API's send and cancel share with any number of (possibly duplicated) job
  handlers, each of which reads, claims, mails its audience one by one, and finalizes. Every SQL statement is one step.
 */
module Broadcast {
  import opened Text

  datatype Status = Draft | Queued | Scheduled | Sending | Canceled | Sent | Partial | Failed

  datatype Row = Row(status: Status, sentCount: nat, failedCount: nat)

  predicate Final(s: Status) { s == Sent || s == Partial || s == Failed }

  function FinalizeOutcome(ok: nat, fail: nat): Status {
    if ok == 0 && fail == 0 then Failed
    else if fail == 0 then Sent
    else if ok == 0 then Failed
    else Partial
  }

  // ----- The guarded updates -----

  function SendRow(row: Row, scheduled: bool): Row {
    if row.status == Draft || row.status == Queued || row.status == Scheduled
    then row.(status := if scheduled then Scheduled else Queued) else row
  }

  function CancelRow(row: Row): Row {
    if row.status == Draft || row.status == Queued || row.status == Scheduled || row.status == Sending
    then row.(status := Canceled) else row
  }

  predicate Claimable(s: Status) { s == Queued || s == Scheduled || s == Sending }

  // ----- The machine -----

  type Hid = nat

  datatype Pc = Idle | Checked | Claimed | Mailing(audience: nat, ok: nat, fail: nat)

  /** `emails` counts messages created; `claims` successful claims; `finals` what each finalize wrote. */
  datatype World = World(row: Row, pcs: map<Hid, Pc>, emails: nat, claims: nat, finals: seq<Pc>)

  datatype Step =
    | SendCall(scheduled: bool)
    | CancelCall
    | Check(h: Hid)
    | Claim(h: Hid)
    | Load(h: Hid, audience: nat)
    | Mail(h: Hid, accepted: bool)
    | Finalize(h: Hid)
    | Crash(h: Hid)

  function PcOf(w: World, h: Hid): Pc { if h in w.pcs then w.pcs[h] else Idle }

  /** A step whose handler is elsewhere changes nothing. */
  function Next(w: World, step: Step): World {
    match step
    case SendCall(scheduled) => w.(row := SendRow(w.row, scheduled))
    case CancelCall => w.(row := CancelRow(w.row))
    case Check(h) =>
      if PcOf(w, h) != Idle || w.row.status == Canceled || Final(w.row.status) then w else w.(pcs := w.pcs[h := Checked])
    case Claim(h) =>
      if PcOf(w, h) != Checked then w
      else if Claimable(w.row.status) then w.(row := w.row.(status := Sending), pcs := w.pcs[h := Claimed], claims := w.claims + 1)
      else w.(pcs := w.pcs[h := Idle])
    case Load(h, audience) => if PcOf(w, h) != Claimed then w else w.(pcs := w.pcs[h := Mailing(audience, 0, 0)])
    case Mail(h, accepted) =>
      (match PcOf(w, h)
       case Mailing(audience, ok, fail) =>
         if ok + fail >= audience then w
         else if accepted then w.(pcs := w.pcs[h := Mailing(audience, ok + 1, fail)], emails := w.emails + 1)
         else w.(pcs := w.pcs[h := Mailing(audience, ok, fail + 1)])
       case _ => w)
    case Finalize(h) =>
      (match PcOf(w, h)
       case Mailing(audience, ok, fail) =>
         if ok + fail < audience then w
         else w.(row := Row(FinalizeOutcome(ok, fail), ok, fail), pcs := w.pcs[h := Idle], finals := w.finals + [PcOf(w, h)])
       case _ => w)
    case Crash(h) => w.(pcs := w.pcs[h := Idle])
  }

  function Exec(w: World, steps: seq<Step>): World {
    if steps == [] then w else Next(Exec(w, steps[..|steps| - 1]), steps[|steps| - 1])
  }

  const NEW_BROADCAST := World(Row(Draft, 0, 0), map[], 0, 0, [])

  predicate CountsMatch(row: Row) {
    match row.status
    case Sent => row.sentCount > 0 && row.failedCount == 0
    case Partial => row.sentCount > 0 && row.failedCount > 0
    case Failed => row.sentCount == 0
    case _ => row.sentCount == 0 && row.failedCount == 0
  }

  predicate InProgress(pc: Pc) { pc.Claimed? || pc.Mailing? }

  ghost predicate Inv(w: World) {
    && CountsMatch(w.row)
    && (forall h :: h in w.pcs && w.pcs[h].Mailing? ==> w.pcs[h].ok + w.pcs[h].fail <= w.pcs[h].audience)
    && (forall i :: 0 <= i < |w.finals| ==> w.finals[i].Mailing? && w.finals[i].ok + w.finals[i].fail == w.finals[i].audience)
    && (w.claims == 0 ==>
          && w.emails == 0 && w.finals == [] && w.row.status != Sending && !Final(w.row.status)
          && forall h :: h in w.pcs ==> !InProgress(w.pcs[h]))
  }

  /** Over every run the counts match the status, and every finalize wrote as many results as its audience had. */
  lemma {:induction false} CountsAlwaysMatch(steps: seq<Step>)
    ensures Inv(Exec(NEW_BROADCAST, steps))
  {
    if steps != [] {
      CountsAlwaysMatch(steps[..|steps| - 1]);
      NextKeepsInv(Exec(NEW_BROADCAST, steps[..|steps| - 1]), steps[|steps| - 1]);
    }
  }

  lemma NextKeepsInv(w: World, step: Step)
    requires Inv(w)
    ensures Inv(Next(w, step))
  {
  }

  /** Once sent, partial or failed, always one of the three. */
  lemma {:induction false} FinalStays(w: World, steps: seq<Step>)
    requires Final(w.row.status)
    ensures Final(Exec(w, steps).row.status)
  {
    if steps != [] {
      FinalStays(w, steps[..|steps| - 1]);
    }
  }

  /** The row always shows what the last finalize counted, once there was one. */
  lemma {:induction false} RowShowsLastFinal(steps: seq<Step>)
    ensures var w := Exec(NEW_BROADCAST, steps);
            if w.finals == [] then !Final(w.row.status)
            else var f := w.finals[|w.finals| - 1];
                 f.Mailing? && w.row == Row(FinalizeOutcome(f.ok, f.fail), f.ok, f.fail)
  {
    if steps != [] {
      RowShowsLastFinal(steps[..|steps| - 1]);
    }
  }

  // ----- Canceling -----

  ghost predicate NoneInProgress(w: World) {
    forall h :: h in w.pcs ==> !InProgress(w.pcs[h])
  }

  lemma {:induction false} CanceledStays(w: World, steps: seq<Step>)
    requires w.row.status == Canceled && NoneInProgress(w)
    ensures var r := Exec(w, steps);
            r.row == w.row && r.emails == w.emails && r.claims == w.claims && NoneInProgress(r)
  {
    if steps != [] {
      CanceledStays(w, steps[..|steps| - 1]);
    }
  }

  /** Canceled before anyone claimed it: no email is ever created. */
  lemma {:induction false} CancelBeforeClaim(before: seq<Step>, after: seq<Step>)
    requires Exec(NEW_BROADCAST, before).row.status == Canceled && Exec(NEW_BROADCAST, before).claims == 0
    ensures var r := Exec(Exec(NEW_BROADCAST, before), after);
            r.row.status == Canceled && r.emails == 0 && r.claims == 0
  {
    CountsAlwaysMatch(before);
    CanceledStays(Exec(NEW_BROADCAST, before), after);
  }

  function Accepted(results: seq<bool>): nat {
    if results == [] then 0 else Accepted(results[..|results| - 1]) + if results[|results| - 1] then 1 else 0
  }

  function Mails(h: Hid, results: seq<bool>): seq<Step> {
    if results == [] then [] else Mails(h, results[..|results| - 1]) + [Mail(h, results[|results| - 1])]
  }

  lemma {:induction false} MailsCount(w: World, h: Hid, results: seq<bool>)
    requires PcOf(w, h).Mailing? && PcOf(w, h).ok + PcOf(w, h).fail + |results| <= PcOf(w, h).audience
    ensures Accepted(results) <= |results|
    ensures var r, pc, ok := Exec(w, Mails(h, results)), PcOf(w, h), Accepted(results);
            && PcOf(r, h) == Mailing(pc.audience, pc.ok + ok, pc.fail + |results| - ok)
            && r.emails == w.emails + ok
  {
    if results != [] {
      var front := results[..|results| - 1];
      MailsCount(w, h, front);
      assert Mails(h, results)[..|Mails(h, results)| - 1] == Mails(h, front);
    }
  }

  lemma {:induction false} ExecAppend(w: World, a: seq<Step>, b: seq<Step>)
    ensures Exec(w, a + b) == Exec(Exec(w, a), b)
  {
    if b == [] {
      assert a + b == a;
    } else {
      assert (a + b)[..|a + b| - 1] == a + b[..|b| - 1];
      ExecAppend(w, a, b[..|b| - 1]);
    }
  }

  lemma {:induction false} ExecOne(w: World, step: Step)
    ensures Exec(w, [step]) == Next(w, step)
  {
    assert [step][..0] == [];
    assert Exec(w, []) == w;
  }

  /** A handler at work can always finish, whatever the status says by then. */
  lemma WorkerOverwrites(w: World, h: Hid) returns (steps: seq<Step>)
    requires InProgress(PcOf(w, h)) && Inv(w)
    ensures Final(Exec(w, steps).row.status)
  {
    if PcOf(w, h).Claimed? {
      ExecOne(w, Load(h, 0));
      var m := Exec(w, [Load(h, 0)]);
      ExecOne(m, Finalize(h));
      ExecAppend(w, [Load(h, 0)], [Finalize(h)]);
      steps := [Load(h, 0)] + [Finalize(h)];
    } else {
      var pc := PcOf(w, h);
      var refusals := seq(pc.audience - pc.ok - pc.fail, _ => false);
      MailsCount(w, h, refusals);
      ExecOne(Exec(w, Mails(h, refusals)), Finalize(h));
      ExecAppend(w, Mails(h, refusals), [Finalize(h)]);
      steps := Mails(h, refusals) + [Finalize(h)];
    }
  }

  ghost predicate CancelHolds(w: World) { forall steps :: Exec(w, steps).row.status == Canceled }

  /**
    The final update has no status guard, so a cancel holds for good exactly when no handler had claimed the broadcast
    and was still at work.
   */
  lemma CancelHoldsIff(w: World)
    requires Inv(w) && w.row.status == Canceled
    ensures CancelHolds(w) <==> NoneInProgress(w)
  {
    if NoneInProgress(w) {
      forall steps ensures Exec(w, steps).row.status == Canceled {
        CanceledStays(w, steps);
      }
    } else {
      var h :| h in w.pcs && InProgress(w.pcs[h]);
      var steps := WorkerOverwrites(w, h);
      assert Exec(w, steps).row.status != Canceled;
    }
  }

  /** It does not hold in this state, which a handler that claims before the cancel brings about: the message goes out. */
  lemma CancelIsOverwritten()
    ensures var w := Exec(NEW_BROADCAST, [SendCall(false), Check(0), Claim(0), CancelCall]);
            && Inv(w) && w.row.status == Canceled && !NoneInProgress(w)
            && Exec(w, [Load(0, 1), Mail(0, true), Finalize(0)]).row == Row(Sent, 1, 0)
  {
    hide Exec, Inv;
    CountsAlwaysMatch([SendCall(false), Check(0), Claim(0), CancelCall]);
    var w0 := NEW_BROADCAST;
    var w1 := w0.(row := Row(Queued, 0, 0));
    var w2 := w1.(pcs := map[0 := Checked]);
    var w3 := w2.(row := Row(Sending, 0, 0), pcs := w2.pcs[0 := Claimed], claims := 1);
    var w4 := w3.(row := Row(Canceled, 0, 0));
    ExecFour(w0, SendCall(false), Check(0), Claim(0), CancelCall);
    assert w4.pcs[0] == Claimed && !NoneInProgress(w4);
    var w5 := w4.(pcs := w4.pcs[0 := Mailing(1, 0, 0)]);
    var w6 := w5.(pcs := w5.pcs[0 := Mailing(1, 1, 0)], emails := 1);
    assert Next(w4, Load(0, 1)) == w5 && Next(w5, Mail(0, true)) == w6 && Next(w6, Finalize(0)).row == Row(Sent, 1, 0);
    ExecThree(w4, Load(0, 1), Mail(0, true), Finalize(0));
  }

  lemma {:induction false} ExecThree(w: World, a: Step, b: Step, c: Step)
    ensures Exec(w, [a, b, c]) == Next(Next(Next(w, a), b), c)
  {
    hide Next, Exec;
    ExecOne(w, a);
    ExecTwoMore(w, [a], b, c);
    assert [a] + [b] + [c] == [a, b, c];
  }

  lemma {:induction false} ExecFour(w: World, a: Step, b: Step, c: Step, d: Step)
    ensures Exec(w, [a, b, c, d]) == Next(Next(Next(Next(w, a), b), c), d)
  {
    hide Next, Exec;
    ExecThree(w, a, b, c);
    ExecAppend(w, [a, b, c], [d]);
    ExecOne(Exec(w, [a, b, c]), d);
    assert [a, b, c] + [d] == [a, b, c, d];
  }

  lemma {:induction false} ExecTwoMore(w: World, steps: seq<Step>, b: Step, c: Step)
    ensures Exec(w, steps + [b] + [c]) == Next(Next(Exec(w, steps), b), c)
  {
    hide Next, Exec;
    ExecAppend(w, steps, [b]);
    ExecOne(Exec(w, steps), b);
    ExecAppend(w, steps + [b], [c]);
    ExecOne(Exec(w, steps + [b]), c);
  }

  // ----- The service and an undisturbed handler -----

  function HandlerSteps(h: Hid, results: seq<bool>): seq<Step> {
    [Check(h)] + ([Claim(h)] + ([Load(h, |results|)] + (Mails(h, results) + [Finalize(h)])))
  }

  lemma HandlerStarts(w: World, h: Hid, audience: nat)
    requires PcOf(w, h) == Idle && Claimable(w.row.status)
    ensures var r := Next(Next(Next(w, Check(h)), Claim(h)), Load(h, audience));
            PcOf(r, h) == Mailing(audience, 0, 0) && r.emails == w.emails
  {
  }

  lemma FinalizeWrites(w: World, h: Hid, ok: nat, fail: nat)
    requires PcOf(w, h) == Mailing(ok + fail, ok, fail)
    ensures Next(w, Finalize(h)).row == Row(FinalizeOutcome(ok, fail), ok, fail)
  {
  }

  /** What `HandleBroadcastSend` below does in one go is one handler of the machine running by itself. */
  lemma {:induction false} HandlerRun(w: World, h: Hid, results: seq<bool>)
    requires PcOf(w, h) == Idle && w.row.status in {Queued, Scheduled, Sending}
    ensures var r, ok := Exec(w, HandlerSteps(h, results)), Accepted(results);
            && ok <= |results| && r.emails == w.emails + ok
            && r.row == Row(FinalizeOutcome(ok, |results| - ok), ok, |results| - ok)
  {
    hide Next, Exec, Mails, PcOf, FinalizeOutcome, Claimable;
    var w1 := Next(w, Check(h));
    var w2 := Next(w1, Claim(h));
    var w3 := Next(w2, Load(h, |results|));
    HandlerStarts(w, h, |results|);
    MailsCount(w3, h, results);
    var w4 := Exec(w3, Mails(h, results));
    FinalizeWrites(w4, h, Accepted(results), |results| - Accepted(results));
    ExecCons(w, Check(h), [Claim(h)] + ([Load(h, |results|)] + (Mails(h, results) + [Finalize(h)])));
    ExecCons(w1, Claim(h), [Load(h, |results|)] + (Mails(h, results) + [Finalize(h)]));
    ExecCons(w2, Load(h, |results|), Mails(h, results) + [Finalize(h)]);
    ExecAppend(w3, Mails(h, results), [Finalize(h)]);
    ExecOne(w4, Finalize(h));
    FinalizeCreatesNoEmail(w4, h);
  }

  lemma FinalizeCreatesNoEmail(w: World, h: Hid)
    ensures Next(w, Finalize(h)).emails == w.emails
  {
  }

  lemma {:induction false} ExecCons(w: World, step: Step, rest: seq<Step>)
    ensures Exec(w, [step] + rest) == Exec(Next(w, step), rest)
  {
    ExecOne(w, step);
    ExecAppend(w, [step], rest);
  }

  class BroadcastStore {
    var row: Row
    var scheduledAt: Option<int>
    var emails: nat

    constructor (scheduledAt: Option<int>)
      ensures row == Row(Draft, 0, 0) && emails == 0 && this.scheduledAt == scheduledAt
    {
      row, emails, this.scheduledAt := Row(Draft, 0, 0), 0, scheduledAt;
    }

    /** Schedules it when the time asked for, or else the one stored, is still to come; refused once claimed or over. */
    method Send(at: Option<int>, immediate: bool, now: int) returns (ok: bool)
      modifies this`row, this`scheduledAt
      ensures ok <==> old(row).status == Draft || old(row).status == Queued || old(row).status == Scheduled
      ensures var wanted := if immediate then None else if at.Some? then at else old(scheduledAt);
              var later := wanted.Some? && wanted.value > now;
              && row == (if !ok then old(row) else old(row).(status := if later then Scheduled else Queued))
              && row == SendRow(old(row), later)
              && scheduledAt == if !ok then old(scheduledAt) else if later then wanted else None
    {
      match row.status {
        case Draft | Queued | Scheduled =>
          var wanted := at;
          if immediate {
            wanted := None;
          } else if wanted.None? {
            wanted := scheduledAt;
          }
          if wanted.Some? && wanted.value > now {
            row, scheduledAt := row.(status := Scheduled), wanted;
          } else {
            row, scheduledAt := row.(status := Queued), None;
          }
          return true;
        case _ => return false;
      }
    }

    method Cancel() returns (ok: bool)
      modifies this`row
      ensures ok <==> old(row).status in {Draft, Queued, Scheduled, Sending}
      ensures row == if ok then old(row).(status := Canceled) else old(row)
      ensures row == CancelRow(old(row))
    {
      ok := row.status == Draft || row.status == Queued || row.status == Scheduled || row.status == Sending;
      if ok {
        row := row.(status := Canceled);
      }
    }

    /** `results[i]` is whether the i-th recipient's message was accepted. */
    method HandleBroadcastSend(results: seq<bool>)
      modifies this
      ensures old(row).status !in {Queued, Scheduled, Sending} ==> row == old(row) && emails == old(emails)
      ensures old(row).status in {Queued, Scheduled, Sending} ==>
                var ok := Accepted(results);
                && ok <= |results|
                && emails == old(emails) + ok
                && row == Row(FinalizeOutcome(ok, |results| - ok), ok, |results| - ok)
    {
      if row.status == Canceled || row.status == Sent || row.status == Partial || row.status == Failed {
        return;
      }
      if !(row.status == Queued || row.status == Scheduled || row.status == Sending) {
        return;
      }
      row := row.(status := Sending);
      var ok, fail := 0, 0;
      for i := 0 to |results|
        invariant ok == Accepted(results[..i]) && ok + fail == i
        invariant emails == old(emails) + ok
      {
        assert results[..i + 1][..i] == results[..i];
        if !results[i] {
          fail := fail + 1;
          continue;
        }
        ok, emails := ok + 1, emails + 1;
      }
      assert results[..|results|] == results;
      row := Row(FinalizeOutcome(ok, fail), ok, fail);
    }
  }
}
