/**
  Automations: a list of steps run by a job queue, one task a step, with the position kept in the run's row.
  The queue-driven handler is compared with a recursive interpreter over the step list.
 */
module Automation {
  import opened Text

  type SegmentId = nat

  datatype Step =
    | Wait(seconds: Option<int>)
    | SendEmail(from: string, to: string, subject: string, html: string)
    | AddToSegment(segment: Option<SegmentId>)
    | Condition(property: string, equals: string)
    | Unknown

  datatype Contact = Contact(id: nat, email: string, properties: map<string, string>)

  /** What a run can see: its contact, and the renderer with the contact's tags. */
  datatype Env = Env(contact: Option<Contact>, render: string -> string)

  datatype Effect = Sent(from: string, to: string, subject: string, html: string) | Joined(segment: SegmentId, contact: nat)

  datatype RunStatus = Running | Completed | Failed

  datatype StepStatus = Done | Skipped | StepFailed

  const DEFAULT_WAIT := 60

  function WaitSeconds(step: Step): int
    requires step.Wait?
  {
    if step.seconds.Some? then step.seconds.value else DEFAULT_WAIT
  }

  function Recipient(step: Step, env: Env): string
    requires step.SendEmail?
  {
    if step.to == "" && env.contact.Some? then env.contact.value.email else step.to
  }

  predicate Sendable(step: Step, env: Env)
    requires step.SendEmail?
  {
    step.from != "" && Recipient(step, env) != "" && step.subject != ""
  }

  predicate Holds(step: Step, env: Env)
    requires step.Condition?
  {
    step.property != "" && env.contact.Some? ==>
      step.equals == (if step.property in env.contact.value.properties then env.contact.value.properties[step.property] else "")
  }

  // ----- Big steps: a recursive interpreter -----

  /** `marks` holds how each step that was reached ended, from position 0 on. */
  datatype Outcome = Outcome(effects: seq<Effect>, waited: int, status: RunStatus, marks: seq<StepStatus>)

  function StepEffects(step: Step, env: Env): seq<Effect> {
    match step
    case SendEmail(from, _, subject, html) =>
      if Sendable(step, env) then [Sent(from, Recipient(step, env), env.render(subject), env.render(html))] else []
    case AddToSegment(segment) =>
      if segment.Some? && env.contact.Some? then [Joined(segment.value, env.contact.value.id)] else []
    case _ => []
  }

  /** How a step that is not held up by the mailer ends. */
  function StepMark(step: Step, env: Env): StepStatus {
    match step
    case Wait(_) => Done
    case SendEmail(_, _, _, _) => if Sendable(step, env) then Done else StepFailed
    case AddToSegment(segment) => if segment.Some? && env.contact.Some? then Done else Skipped
    case Condition(_, _) => if Holds(step, env) then Done else Skipped
    case Unknown => Skipped
  }

  function Interpret(steps: seq<Step>, env: Env): Outcome {
    if steps == [] then Outcome([], 0, Completed, [])
    else if steps[0].SendEmail? && !Sendable(steps[0], env) then Outcome([], 0, Failed, [StepFailed])
    else if steps[0].Condition? && !Holds(steps[0], env) then Outcome([], 0, Completed, [Skipped])
    else
      var rest := Interpret(steps[1..], env);
      Outcome(StepEffects(steps[0], env) + rest.effects,
              rest.waited + if steps[0].Wait? then WaitSeconds(steps[0]) else 0, rest.status,
              [StepMark(steps[0], env)] + rest.marks)
  }

  // ----- What a list of steps comes to, position by position -----

  /** A mail step without sender or subject, or with nobody to send to, breaks the run. */
  predicate Breaks(step: Step, env: Env) {
    step.SendEmail? && (step.from == "" || step.subject == ""
                        || (step.to == "" && (env.contact.None? || env.contact.value.email == "")))
  }

  /** A condition turns the contact away that has another value for the property; a missing value is the empty text. */
  predicate TurnsAway(step: Step, env: Env) {
    step.Condition? && step.property != "" && env.contact.Some?
    && var props := env.contact.value.properties;
       if step.property in props then props[step.property] != step.equals else step.equals != ""
  }

  /** No step before this one ends the run. */
  ghost predicate Reached(steps: seq<Step>, env: Env, i: nat) {
    i < |steps| && forall j :: 0 <= j < i ==> !Breaks(steps[j], env) && !TurnsAway(steps[j], env)
  }

  /** The mail goes to the address given, else to the contact; a contact joins a segment that is known. */
  predicate Performs(step: Step, env: Env, e: Effect) {
    match step
    case SendEmail(from, to, subject, html) =>
      !Breaks(step, env) && e == Sent(from, if to != "" then to else env.contact.value.email, env.render(subject), env.render(html))
    case AddToSegment(segment) => segment.Some? && env.contact.Some? && e == Joined(segment.value, env.contact.value.id)
    case _ => false
  }

  predicate LeavesMark(step: Step, env: Env, mark: StepStatus) {
    match step
    case Wait(_) => mark == Done
    case SendEmail(_, _, _, _) => mark == if Breaks(step, env) then StepFailed else Done
    case AddToSegment(segment) => mark == if segment.None? || env.contact.None? then Skipped else Done
    case Condition(_, _) => mark == if TurnsAway(step, env) then Skipped else Done
    case Unknown => mark == Skipped
  }

  /** The seconds that the first n steps wait, 60 where none are given. */
  function WaitedIn(steps: seq<Step>, n: nat): int
    requires n <= |steps|
  {
    if n == 0 then 0
    else WaitedIn(steps, n - 1) + match steps[n - 1] case Wait(Some(t)) => t case Wait(None) => 60 case _ => 0
  }

  ghost predicate Hit(steps: seq<Step>, env: Env, i: nat, e: Effect) {
    Reached(steps, env, i) && Performs(steps[i], env, e)
  }

  ghost predicate Hits(steps: seq<Step>, env: Env, effects: seq<Effect>, at: seq<nat>) {
    |at| == |effects| && forall k :: 0 <= k < |at| ==> Hit(steps, env, at[k], effects[k])
  }

  predicate Rising(at: seq<nat>) { forall j, k :: 0 <= j < k < |at| ==> at[j] < at[k] }

  /** The effects are those of the steps at these positions, in order, and no reached step has another. */
  ghost predicate Traces(steps: seq<Step>, env: Env, effects: seq<Effect>, at: seq<nat>) {
    Hits(steps, env, effects, at) && Rising(at) && forall i: nat, e :: Hit(steps, env, i, e) ==> i in at
  }

  lemma StopsIff(step: Step, env: Env)
    ensures step.SendEmail? ==> (Breaks(step, env) <==> !Sendable(step, env))
    ensures step.Condition? ==> (TurnsAway(step, env) <==> !Holds(step, env))
    ensures Stops(step, env) <==> Breaks(step, env) || TurnsAway(step, env)
    ensures LeavesMark(step, env, StepMark(step, env))
    ensures var es := StepEffects(step, env);
            |es| <= 1 && (forall e :: Performs(step, env, e) <==> e in es) && (Stops(step, env) ==> es == [])
  {
  }

  lemma ReachedFromHead(steps: seq<Step>, env: Env)
    requires steps != [] && !Breaks(steps[0], env) && !TurnsAway(steps[0], env)
    ensures forall i: nat :: Reached(steps[1..], env, i) <==> Reached(steps, env, i + 1)
  {
    var rest := steps[1..];
    forall i: nat ensures Reached(rest, env, i) <==> Reached(steps, env, i + 1) {
      if Reached(steps, env, i + 1) {
        forall j | 0 <= j < i ensures !Breaks(rest[j], env) && !TurnsAway(rest[j], env) {
          assert rest[j] == steps[j + 1];
        }
      }
      if Reached(rest, env, i) {
        forall j | 0 <= j < i + 1 ensures !Breaks(steps[j], env) && !TurnsAway(steps[j], env) {
          assert j > 0 ==> steps[j] == rest[j - 1];
        }
      }
    }
  }

  function Shifted(at: seq<nat>): seq<nat> { seq(|at|, k requires 0 <= k < |at| => at[k] + 1) }

  lemma HitFromHead(steps: seq<Step>, env: Env, i: nat, e: Effect)
    requires steps != [] && !Breaks(steps[0], env) && !TurnsAway(steps[0], env)
    ensures Hit(steps, env, i + 1, e) <==> Hit(steps[1..], env, i, e)
    ensures Hit(steps, env, 0, e) <==> Performs(steps[0], env, e)
  {
    hide Breaks, TurnsAway, Performs;
    ReachedFromHead(steps, env);
  }

  lemma HitsShifted(steps: seq<Step>, env: Env, effects: seq<Effect>, at: seq<nat>)
    requires steps != [] && !Breaks(steps[0], env) && !TurnsAway(steps[0], env)
    requires Hits(steps[1..], env, effects, at)
    ensures Hits(steps, env, effects, Shifted(at))
  {
    hide Hit, Breaks, TurnsAway;
    forall k | 0 <= k < |at| ensures Hit(steps, env, Shifted(at)[k], effects[k]) {
      HitFromHead(steps, env, at[k], effects[k]);
    }
  }

  lemma HitsPrepended(steps: seq<Step>, env: Env, i: nat, e: Effect, effects: seq<Effect>, at: seq<nat>)
    requires Hit(steps, env, i, e) && Hits(steps, env, effects, at)
    ensures Hits(steps, env, [e] + effects, [i] + at)
  {
    hide Hit;
  }

  lemma HitIsShifted(steps: seq<Step>, env: Env, at: seq<nat>, i: nat, e: Effect)
    requires steps != [] && !Breaks(steps[0], env) && !TurnsAway(steps[0], env)
    requires forall k: nat, f :: Hit(steps[1..], env, k, f) ==> k in at
    requires i > 0 && Hit(steps, env, i, e)
    ensures i in Shifted(at)
  {
    hide Hit, Breaks, TurnsAway;
    HitFromHead(steps, env, i - 1, e);
    var k :| 0 <= k < |at| && at[k] == i - 1;
    assert Shifted(at)[k] == i;
  }

  lemma HeadReached(steps: seq<Step>, env: Env)
    requires steps != []
    ensures Reached(steps, env, 0)
  {
  }

  lemma TraceShifted(steps: seq<Step>, env: Env, effects: seq<Effect>, at: seq<nat>)
    requires steps != [] && !Breaks(steps[0], env) && !TurnsAway(steps[0], env)
    requires Traces(steps[1..], env, effects, at) && forall e :: !Performs(steps[0], env, e)
    ensures Traces(steps, env, effects, Shifted(at))
  {
    hide Breaks, TurnsAway, Performs, Hit, Hits;
    HitsShifted(steps, env, effects, at);
    forall i: nat, e | Hit(steps, env, i, e) ensures i in Shifted(at) {
      if i == 0 { HitFromHead(steps, env, 0, e); } else { HitIsShifted(steps, env, at, i, e); }
    }
  }

  lemma TracePrepended(steps: seq<Step>, env: Env, own: Effect, effects: seq<Effect>, at: seq<nat>)
    requires steps != [] && !Breaks(steps[0], env) && !TurnsAway(steps[0], env)
    requires Traces(steps[1..], env, effects, at) && Performs(steps[0], env, own)
    ensures Traces(steps, env, [own] + effects, [0] + Shifted(at))
  {
    hide Breaks, TurnsAway, Performs, Hit, Hits;
    HitsShifted(steps, env, effects, at);
    HitFromHead(steps, env, 0, own);
    HitsPrepended(steps, env, 0, own, effects, Shifted(at));
    forall i: nat, e | Hit(steps, env, i, e) ensures i in [0] + Shifted(at) {
      if i > 0 { HitIsShifted(steps, env, at, i, e); }
    }
  }

  lemma TraceFromHead(steps: seq<Step>, env: Env, effects: seq<Effect>, at: seq<nat>)
    requires steps != [] && !Breaks(steps[0], env) && !TurnsAway(steps[0], env)
    requires Traces(steps[1..], env, effects, at)
    ensures Traces(steps, env, StepEffects(steps[0], env) + effects,
                   (if StepEffects(steps[0], env) == [] then [] else [0]) + Shifted(at))
  {
    hide Breaks, TurnsAway, Performs, StepEffects, Reached, Traces;
    var own := StepEffects(steps[0], env);
    StopsIff(steps[0], env);
    if own == [] {
      TraceShifted(steps, env, effects, at);
      assert own + effects == effects && [] + Shifted(at) == Shifted(at);
    } else {
      assert own == [own[0]];
      TracePrepended(steps, env, own[0], effects, at);
    }
  }

  /** The recursive interpreter, said of the whole list at once. */
  ghost predicate IsOutcome(steps: seq<Step>, env: Env, o: Outcome) {
    && (exists at :: Traces(steps, env, o.effects, at))
    && (forall i: nat :: i < |o.marks| <==> Reached(steps, env, i))
    && |o.marks| <= |steps| && (forall i :: 0 <= i < |o.marks| ==> LeavesMark(steps[i], env, o.marks[i]))
    && o.waited == WaitedIn(steps, |o.marks|)
    && o.status == if exists i: nat :: Reached(steps, env, i) && Breaks(steps[i], env) then Failed else Completed
  }

  lemma EmptyMeans(env: Env)
    ensures IsOutcome([], env, Outcome([], 0, Completed, []))
  {
    assert Traces([], env, [], []);
  }

  lemma OnlyHeadReached(steps: seq<Step>, env: Env)
    requires steps != [] && (Breaks(steps[0], env) || TurnsAway(steps[0], env))
    ensures forall i: nat :: Reached(steps, env, i) <==> i == 0
  {
  }

  lemma {:induction false} StopMeans(steps: seq<Step>, env: Env)
    requires steps != [] && Stops(steps[0], env)
    ensures IsOutcome(steps, env, Interpret(steps, env))
  {
    assert Breaks(steps[0], env) ==> steps[0].SendEmail?;
    assert TurnsAway(steps[0], env) ==> steps[0].Condition?;
    hide Breaks, TurnsAway, Performs, LeavesMark, Reached;
    StopsIff(steps[0], env);
    OnlyHeadReached(steps, env);
    assert Traces(steps, env, [], []);
    assert WaitedIn(steps, 1) == WaitedIn(steps, 0);
  }

  lemma {:induction false} WaitedFromHead(steps: seq<Step>, n: nat)
    requires n < |steps|
    ensures WaitedIn(steps, n + 1) == WaitedIn(steps[1..], n) + StepWait(steps[0])
  {
    if n == 0 {
      assert WaitedIn(steps, 1) == WaitedIn(steps, 0) + StepWait(steps[0]);
    } else {
      WaitedFromHead(steps, n - 1);
      assert steps[1..][n - 1] == steps[n];
    }
  }

  lemma HeadMeans(steps: seq<Step>, env: Env, rest: Outcome)
    requires steps != [] && !Stops(steps[0], env) && IsOutcome(steps[1..], env, rest)
    ensures IsOutcome(steps, env, Outcome(StepEffects(steps[0], env) + rest.effects, rest.waited + StepWait(steps[0]), rest.status,
                                          [StepMark(steps[0], env)] + rest.marks))
  {
    hide Breaks, TurnsAway, Performs, StepEffects, LeavesMark, Reached, Traces, StepMark;
    StopsIff(steps[0], env);
    ReachedFromHead(steps, env);
    HeadReached(steps, env);
    var at :| Traces(steps[1..], env, rest.effects, at);
    TraceFromHead(steps, env, rest.effects, at);
    WaitedFromHead(steps, |rest.marks|);
    var marks := [StepMark(steps[0], env)] + rest.marks;
    forall i: nat ensures i < |marks| <==> Reached(steps, env, i) {
      if i > 0 { assert i - 1 < |rest.marks| <==> Reached(steps[1..], env, i - 1); }
    }
    forall i | 0 <= i < |marks| ensures LeavesMark(steps[i], env, marks[i]) {
      if i > 0 { assert steps[i] == steps[1..][i - 1]; }
    }
    BreaksFromHead(steps, env);
  }

  lemma BreaksFromHead(steps: seq<Step>, env: Env)
    requires steps != [] && !Breaks(steps[0], env) && !TurnsAway(steps[0], env)
    ensures (exists i: nat :: Reached(steps, env, i) && Breaks(steps[i], env))
       <==> (exists i: nat :: Reached(steps[1..], env, i) && Breaks(steps[1..][i], env))
  {
    hide Breaks, TurnsAway;
    ReachedFromHead(steps, env);
    if i: nat :| Reached(steps, env, i) && Breaks(steps[i], env) {
      assert i > 0;
      assert Reached(steps[1..], env, i - 1) && steps[1..][i - 1] == steps[i];
    }
    if i: nat :| Reached(steps[1..], env, i) && Breaks(steps[1..][i], env) {
      assert Reached(steps, env, i + 1) && steps[1..][i] == steps[i + 1];
    }
  }

  lemma {:induction false} InterpretMeans(steps: seq<Step>, env: Env)
    ensures IsOutcome(steps, env, Interpret(steps, env))
  {
    hide Breaks, TurnsAway, Sendable, Holds, StepEffects, StepMark, IsOutcome;
    if steps == [] {
      EmptyMeans(env);
    } else if Stops(steps[0], env) {
      StopMeans(steps, env);
    } else {
      InterpretMeans(steps[1..], env);
      HeadMeans(steps, env, Interpret(steps[1..], env));
    }
  }

  // ----- Small steps: one task of the handler -----

  /** `queued` counts the run's pending tasks; `executed` is the log of positions whose step was carried out. */
  datatype Run = Run(status: RunStatus, current: nat, stepStatus: map<nat, StepStatus>,
                     effects: seq<Effect>, waited: int, queued: nat, executed: seq<nat>)

  const NEW_RUN := Run(Running, 0, map[], [], 0, 1, [])

  function Mark(r: Run, status: StepStatus): Run {
    r.(stepStatus := r.stepStatus[r.current := status], executed := r.executed + [r.current])
  }

  /** On to the next position, with a task enqueued for it. */
  function MoveOn(r: Run): Run { r.(current := r.current + 1, queued := r.queued + 1) }

  /** What one delivered task does; `sendOk` is the mailer's answer, should it be asked. A task that errs comes back. */
  function Handle(table: map<nat, Step>, env: Env, r: Run, sendOk: bool): Run {
    if r.status != Running then r
    else if r.current !in table then r.(status := Completed)
    else
      var step := table[r.current];
      match step
      case Wait(_) => MoveOn(Mark(r, Done).(waited := r.waited + WaitSeconds(step)))
      case SendEmail(_, _, _, _) =>
        if !Sendable(step, env) then Mark(r, StepFailed).(status := Failed, queued := r.queued + 1)
        else if !sendOk then r.(stepStatus := r.stepStatus[r.current := StepFailed], queued := r.queued + 1)
        else MoveOn(Mark(r, Done).(effects := r.effects + StepEffects(step, env)))
      case AddToSegment(segment) =>
        if segment.None? || env.contact.None? then MoveOn(Mark(r, Skipped))
        else MoveOn(Mark(r, Done).(effects := r.effects + StepEffects(step, env)))
      case Condition(_, _) =>
        if !Holds(step, env) then Mark(r, Skipped).(status := Completed) else MoveOn(Mark(r, Done))
      case Unknown => MoveOn(Mark(r, Skipped))
  }

  /** Positions are 0, 1, ..., n-1. */
  ghost predicate Dense(table: map<nat, Step>, steps: seq<Step>) {
    && (forall i: nat :: i in table <==> i < |steps|)
    && (forall i :: 0 <= i < |steps| ==> table[i] == steps[i])
  }

  function Count(n: nat): seq<nat> { seq(n, i => i) }

  /** The rows of the steps are exactly these, by position. */
  ghost predicate Recorded(rows: map<nat, StepStatus>, marks: seq<StepStatus>) {
    && (forall i: nat :: i in rows <==> i < |marks|)
    && (forall i :: 0 <= i < |marks| ==> rows[i] == marks[i])
  }

  /** Before the current position the rows are as given; the current one has a row only if its send failed, later ones none. */
  ghost predicate RecordedTo(rows: map<nat, StepStatus>, current: nat, marks: seq<StepStatus>) {
    && current <= |marks|
    && (forall i :: 0 <= i < current ==> i in rows && rows[i] == marks[i])
    && (forall i :: i in rows && i >= current ==> i == current && i < |marks| && rows[i] == StepFailed)
  }

  /** What was done so far, followed by what the interpreter does from here, is what it does in all. */
  ghost predicate Agrees(r: Run, steps: seq<Step>, env: Env) {
    var all := Interpret(steps, env);
    if r.status == Running then
      && r.current <= |steps|
      && r.executed == Count(r.current)
      && RecordedTo(r.stepStatus, r.current, all.marks)
      && var rest := Interpret(steps[r.current..], env);
         all == Outcome(r.effects + rest.effects, r.waited + rest.waited, rest.status, all.marks[..r.current] + rest.marks)
    else
      && Did(r, all)
      && |r.executed| <= |steps| && r.executed == Count(|r.executed|)
  }

  /** The run did all that, and left that record. */
  ghost predicate Did(r: Run, all: Outcome) {
    && r.effects == all.effects && r.waited == all.waited && r.status == all.status
    && Recorded(r.stepStatus, all.marks) && |r.executed| == |all.marks|
  }

  predicate Stops(step: Step, env: Env) {
    (step.SendEmail? && !Sendable(step, env)) || (step.Condition? && !Holds(step, env))
  }

  function StepWait(step: Step): int { if step.Wait? then WaitSeconds(step) else 0 }

  /** The three ways a task can leave a running run: unmoved, ended, or at the next position. */
  lemma HandleShape(table: map<nat, Step>, env: Env, r: Run, sendOk: bool)
    requires r.status == Running && r.current in table
    ensures var step, h := table[r.current], Handle(table, env, r, sendOk);
            if Stops(step, env) then
              h.effects == r.effects && h.waited == r.waited && h.executed == r.executed + [r.current]
              && h.status == (if step.SendEmail? then Failed else Completed)
              && h.stepStatus == r.stepStatus[r.current := StepMark(step, env)]
            else if step.SendEmail? && !sendOk then
              h == r.(stepStatus := r.stepStatus[r.current := StepFailed], queued := h.queued)
            else
              h == r.(current := r.current + 1, effects := r.effects + StepEffects(step, env), waited := r.waited + StepWait(step),
                      executed := r.executed + [r.current], queued := r.queued + 1,
                      stepStatus := r.stepStatus[r.current := StepMark(step, env)])
  {
  }

  lemma {:induction false} InterpretUnfold(steps: seq<Step>, i: nat, env: Env)
    requires i < |steps|
    ensures var rest := Interpret(steps[i + 1..], env);
            Interpret(steps[i..], env) ==
            if Stops(steps[i], env) then Outcome([], 0, if steps[i].SendEmail? then Failed else Completed, [StepMark(steps[i], env)])
            else Outcome(StepEffects(steps[i], env) + rest.effects, rest.waited + StepWait(steps[i]), rest.status,
                         [StepMark(steps[i], env)] + rest.marks)
  {
    assert steps[i..][1..] == steps[i + 1..];
  }

  lemma {:induction false} InterpretEnd(env: Env)
    ensures Interpret([], env) == Outcome([], 0, Completed, [])
  {
  }

  lemma CountMore(n: nat)
    ensures Count(n) + [n] == Count(n + 1)
  {
  }

  lemma MarkNext(all: seq<StepStatus>, i: nat, mark: StepStatus, rest: seq<StepStatus>)
    requires i <= |all| && all == all[..i] + ([mark] + rest)
    ensures i < |all| && all[i] == mark && all == all[..i + 1] + rest && (rest == [] ==> |all| == i + 1)
  {
    assert all[i..] == [mark] + rest;
    assert all[i + 1..] == rest;
  }

  lemma RowIsWritten(rows: map<nat, StepStatus>, i: nat, marks: seq<StepStatus>)
    requires RecordedTo(rows, i, marks) && i < |marks|
    ensures RecordedTo(rows[i := marks[i]], i + 1, marks) && RecordedTo(rows[i := StepFailed], i, marks)
    ensures |marks| == i + 1 ==> Recorded(rows[i := marks[i]], marks)
  {
  }

  lemma {:induction false} AgreementBounds(r: Run, steps: seq<Step>, env: Env)
    requires Agrees(r, steps, env) && r.status == Running
    ensures r.current <= |steps| && r.current <= |Interpret(steps, env).marks|
  {
  }

  lemma StepKeepsAgreement(table: map<nat, Step>, env: Env, r: Run, sendOk: bool, steps: seq<Step>)
    requires Dense(table, steps) && Agrees(r, steps, env) && r.status == Running && r.current < |steps|
    ensures Agrees(Handle(table, env, r, sendOk), steps, env)
  {
    hide Interpret, StepEffects, StepMark, StepWait, Stops, Handle, Recorded, RecordedTo;
    var all, rest := Interpret(steps, env), Interpret(steps[r.current + 1..], env);
    AgreementBounds(r, steps, env);
    HandleShape(table, env, r, sendOk);
    InterpretUnfold(steps, r.current, env);
    CountMore(r.current);
    Regroup(r.effects, StepEffects(steps[r.current], env), rest.effects);
    MarkNext(all.marks, r.current, StepMark(steps[r.current], env), if Stops(steps[r.current], env) then [] else rest.marks);
    RowIsWritten(r.stepStatus, r.current, all.marks);
  }

  lemma EndKeepsAgreement(env: Env, r: Run, steps: seq<Step>)
    requires Agrees(r, steps, env) && r.status == Running && r.current == |steps|
    ensures Agrees(r.(status := Completed), steps, env)
  {
    hide Interpret;
    var all := Interpret(steps, env);
    InterpretEnd(env);
    assert steps[r.current..] == [];
    Regroup(r.effects, [], []);
    Regroup(all.marks[..r.current], [], []);
  }

  lemma HandleKeepsAgreement(table: map<nat, Step>, env: Env, r: Run, sendOk: bool, steps: seq<Step>)
    requires Dense(table, steps) && Agrees(r, steps, env)
    ensures Agrees(Handle(table, env, r, sendOk), steps, env)
  {
    hide Agrees;
    if r.status == Running {
      AgreementBounds(r, steps, env);
      if r.current < |steps| { StepKeepsAgreement(table, env, r, sendOk, steps); } else { EndKeepsAgreement(env, r, steps); }
    }
  }

  /** Any number of deliveries, late or duplicated, each with its own answer from the mailer. */
  function Deliver(table: map<nat, Step>, env: Env, r: Run, answers: seq<bool>): Run {
    if answers == [] then r
    else Handle(table, env, Deliver(table, env, r, answers[..|answers| - 1]), answers[|answers| - 1])
  }

  /**
    However many tasks are delivered: the executed positions are 0, 1, 2, ... without gap or repeat, the effects are
    a prefix of the interpreter's, and a run that has ended did exactly what the interpreter does.
   */
  lemma {:induction false} DuplicatesAreHarmless(table: map<nat, Step>, env: Env, steps: seq<Step>, answers: seq<bool>)
    requires Dense(table, steps)
    ensures var r := Deliver(table, env, NEW_RUN, answers);
            && Agrees(r, steps, env)
            && r.executed == Count(|r.executed|)
            && r.effects <= Interpret(steps, env).effects
            && (r.status != Running ==> Did(r, Interpret(steps, env)) && IsOutcome(steps, env, Interpret(steps, env)))
  {
    InterpretMeans(steps, env);
    hide IsOutcome;
    if answers == [] {
      assert steps[0..] == steps && [] + Interpret(steps, env).effects == Interpret(steps, env).effects;
      assert Count(0) == [];
    } else {
      DuplicatesAreHarmless(table, env, steps, answers[..|answers| - 1]);
      HandleKeepsAgreement(table, env, Deliver(table, env, NEW_RUN, answers[..|answers| - 1]), answers[|answers| - 1], steps);
    }
  }

  /** Once a run has ended no task changes anything in it. */
  lemma {:induction false} EndedRunIsFixed(table: map<nat, Step>, env: Env, r: Run, answers: seq<bool>)
    requires r.status != Running
    ensures Deliver(table, env, r, answers) == r
  {
    if answers != [] {
      EndedRunIsFixed(table, env, r, answers[..|answers| - 1]);
    }
  }

  /** A send that keeps failing holds the run at its position and lets nothing through. */
  lemma {:induction false} FailingSendBlocks(table: map<nat, Step>, env: Env, r: Run, answers: seq<bool>)
    requires r.status == Running && r.current in table && table[r.current].SendEmail? && Sendable(table[r.current], env)
    requires true !in answers
    ensures var d := Deliver(table, env, r, answers);
            d.status == Running && d.current == r.current && d.effects == r.effects && d.executed == r.executed
  {
    if answers != [] {
      assert answers[|answers| - 1] in answers;
      FailingSendBlocks(table, env, r, answers[..|answers| - 1]);
    }
  }

  lemma DrainStep(table: map<nat, Step>, env: Env, r: Run, steps: seq<Step>)
    requires Dense(table, steps) && Agrees(r, steps, env)
    ensures var h := Handle(table, env, r, true);
            && Agrees(h, steps, env)
            && (r.status != Running ==> h == r)
            && (h.status == Running ==> r.status == Running && h.current == r.current + 1 && h.queued == r.queued + 1)
            && (h.status != Running && r.status == Running ==>
                  h.queued <= r.queued + (if r.current < |steps| then 1 else 0))
  {
    HandleKeepsAgreement(table, env, r, true, steps);
    if r.status == Running && r.current < |steps| { HandleShape(table, env, r, true); }
  }

  // ----- The store and the queue -----

  class AutomationStore {
    var table: map<nat, Step>
    var status: RunStatus
    var current: nat
    var stepStatus: map<nat, StepStatus>
    var effects: seq<Effect>
    var waited: int
    var queued: nat
    ghost var executed: seq<nat>

    ghost function State(): Run
      reads this
    {
      Run(status, current, stepStatus, effects, waited, queued, executed)
    }

    /** Inserts the steps one by one, numbering them from 0. */
    constructor Create(steps: seq<Step>)
      ensures Dense(table, steps)
    {
      table, status, current, stepStatus := map[], Completed, 0, map[];
      effects, waited, queued, executed := [], 0, 0, [];
      new;
      InsertSteps(steps);
    }

    method InsertSteps(steps: seq<Step>)
      requires table == map[]
      modifies this`table
      ensures Dense(table, steps)
    {
      for i := 0 to |steps|
        invariant Dense(table, steps[..i])
      {
        table := table[i := steps[i]];
      }
      assert steps[..|steps|] == steps;
    }

    /** Replaces the whole list when one is given. */
    method Update(steps: Option<seq<Step>>)
      modifies this`table
      ensures steps.Some? ==> Dense(table, steps.value)
      ensures steps.None? ==> table == old(table)
    {
      if steps.Some? {
        table := map[];
        InsertSteps(steps.value);
      }
    }

    /** Starts a run and enqueues its first task. */
    method StartRun()
      modifies this
      ensures table == old(table) && State() == NEW_RUN
    {
      status, current, stepStatus := Running, 0, map[];
      effects, waited, queued, executed := [], 0, 1, [];
    }

    method HandleAutomationStep(env: Env, sendOk: bool)
      modifies this
      ensures table == old(table)
      ensures State() == Handle(table, env, old(State()), sendOk)
    {
      if status != Running {
        return;
      }
      if current !in table {
        status := Completed;
        return;
      }
      var step := table[current];
      match step {
        case Wait(_) =>
          waited := waited + WaitSeconds(step);
          stepStatus := stepStatus[current := Done];
        case SendEmail(from, _, subject, html) =>
          var to := Recipient(step, env);
          if from == "" || to == "" || subject == "" {
            stepStatus, status := stepStatus[current := StepFailed], Failed;
            executed, queued := executed + [current], queued + 1;
            return;
          }
          if !sendOk {
            stepStatus, queued := stepStatus[current := StepFailed], queued + 1;
            return;
          }
          effects := effects + [Sent(from, to, env.render(subject), env.render(html))];
          stepStatus := stepStatus[current := Done];
        case AddToSegment(segment) =>
          if segment.None? || env.contact.None? {
            stepStatus := stepStatus[current := Skipped];
          } else {
            effects := effects + [Joined(segment.value, env.contact.value.id)];
            stepStatus := stepStatus[current := Done];
          }
        case Condition(_, _) =>
          if !Holds(step, env) {
            stepStatus, status := stepStatus[current := Skipped], Completed;
            executed := executed + [current];
            return;
          }
          stepStatus := stepStatus[current := Done];
        case Unknown =>
          stepStatus := stepStatus[current := Skipped];
      }
      executed := executed + [current];
      current, queued := current + 1, queued + 1;
    }

    /**
      From a new run, with every send succeeding, the queue runs dry within n + 1 tasks, and the run has done what
      the recursive interpreter does.
     */
    method Drain(env: Env, ghost steps: seq<Step>) returns (handled: nat)
      requires Dense(table, steps) && State() == NEW_RUN
      modifies this
      ensures queued == 0 && status != Running
      ensures Did(State(), Interpret(steps, env)) && IsOutcome(steps, env, Interpret(steps, env))
      ensures handled <= |steps| + 1
    {
      hide IsOutcome;
      handled := 0;
      InterpretMeans(steps, env);
      DuplicatesAreHarmless(table, env, steps, []);
      while queued > 0
        invariant table == old(table) && Dense(table, steps)
        invariant Agrees(State(), steps, env)
        invariant status == Running ==> queued == 1 && handled == current
        invariant status != Running ==> queued <= 1 && handled + queued <= |steps| + 1
        decreases status == Running, |steps| + 1 - current, queued
      {
        queued := queued - 1;
        ghost var before := State();
        HandleAutomationStep(env, true);
        handled := handled + 1;
        DrainStep(table, env, before, steps);
      }
    }
  }

  // ----- Which automations an event starts -----

  datatype Automation = Automation(triggerType: string, filter: map<string, string>, enabled: bool)

  method FilterMatches(filter: map<string, string>, context: map<string, string>) returns (ok: bool)
    ensures ok <==> forall k :: k in filter ==> k in context && context[k] == filter[k]
  {
    var left := filter.Keys;
    while left != {}
      invariant left <= filter.Keys
      invariant forall k :: k in filter && k !in left ==> k in context && context[k] == filter[k]
      decreases left
    {
      var k :| k in left;
      if k !in context || context[k] != filter[k] {
        return false;
      }
      left := left - {k};
    }
    return true;
  }

  ghost predicate Starts(a: Automation, triggerType: string, context: map<string, string>) {
    a.enabled && a.triggerType == triggerType && forall k :: k in a.filter ==> k in context && context[k] == a.filter[k]
  }

  datatype StartedRun = StartedRun(automation: nat, run: Run)

  /** New runs, each with its first task queued, of exactly the matching automations among the first n, in their order. */
  ghost predicate RunsFor(added: seq<StartedRun>, autos: seq<Automation>, n: nat, triggerType: string, context: map<string, string>)
    requires n <= |autos|
  {
    && (forall k :: 0 <= k < |added| ==>
          added[k].run == NEW_RUN && added[k].automation < n && Starts(autos[added[k].automation], triggerType, context))
    && (forall i :: 0 <= i < n && Starts(autos[i], triggerType, context) ==>
          exists k :: 0 <= k < |added| && added[k].automation == i)
    && (forall j, k :: 0 <= j < k < |added| ==> added[j].automation < added[k].automation)
  }

  lemma OneMoreRun(added: seq<StartedRun>, autos: seq<Automation>, n: nat, triggerType: string, context: map<string, string>)
    requires n < |autos| && RunsFor(added, autos, n, triggerType, context)
    ensures Starts(autos[n], triggerType, context) ==>
              RunsFor(added + [StartedRun(n, NEW_RUN)], autos, n + 1, triggerType, context)
    ensures !Starts(autos[n], triggerType, context) ==> RunsFor(added, autos, n + 1, triggerType, context)
  {
    hide Starts;
    var more := added + [StartedRun(n, NEW_RUN)];
    assert more[|added|].automation == n;
    forall i | 0 <= i < n && Starts(autos[i], triggerType, context) ensures exists k :: 0 <= k < |more| && more[k].automation == i {
      var k :| 0 <= k < |added| && added[k].automation == i;
      assert more[k].automation == i;
    }
  }

  /** The automations and all runs of a team. */
  class TeamAutomations {
    const autos: seq<Automation>
    var runs: seq<StartedRun>

    constructor (autos: seq<Automation>)
      ensures this.autos == autos && runs == []
    {
      this.autos, runs := autos, [];
    }

    method Trigger(triggerType: string, context: map<string, string>)
      modifies this
      ensures old(runs) <= runs
      ensures RunsFor(runs[|old(runs)|..], autos, |autos|, triggerType, context)
    {
      ghost var added: seq<StartedRun> := [];
      for i := 0 to |autos|
        invariant runs == old(runs) + added && RunsFor(added, autos, i, triggerType, context)
      {
        OneMoreRun(added, autos, i, triggerType, context);
        hide RunsFor;
        if autos[i].enabled && autos[i].triggerType == triggerType {
          var ok := FilterMatches(autos[i].filter, context);
          if ok {
            runs := runs + [StartedRun(i, NEW_RUN)];
            added := added + [StartedRun(i, NEW_RUN)];
          }
        }
      }
      assert runs[|old(runs)|..] == added;
    }
  }
}
