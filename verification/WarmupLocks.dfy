/**
  The same transactions at the grain of their statements: any number of workers take the pool
  row, then the schedule row, compute on what they read, write, and commit. Row locks are held to
  the end of the transaction. The machine is shown to refine the one-step transactions of `Warmup`.
 */
module WarmupLocks {
  import opened Text
  import opened Warmup

  type Tid = nat

  datatype Job = AdvanceJob | ReserveJob

  /** `Ready` holds what the worker read: both rows and, for an advance, the day on its clock. */
  datatype Pc = Idle | WantPool(job: Job) | WantSchedule(job: Job) | Ready(job: Job, seen: Row, day: int)

  datatype State = State(row: Row, clock: int, granted: nat, pool: Option<Tid>, schedule: Option<Tid>, pcs: map<Tid, Pc>)

  datatype Action =
    | Tick
    | Start(t: Tid, job: Job)
    | LockPool(t: Tid)
    | LockSchedule(t: Tid)
    | Commit(t: Tid)
    | Abort(t: Tid)
    | PauseStmt
    | ResumeStmt

  function PcOf(s: State, t: Tid): Pc { if t in s.pcs then s.pcs[t] else Idle }

  /** Ends worker t's transaction, dropping whatever it holds. */
  function Release(s: State, t: Tid): State {
    s.(pool := if s.pool == Some(t) then None else s.pool,
       schedule := if s.schedule == Some(t) then None else s.schedule,
       pcs := s.pcs[t := Idle])
  }

  predicate Enabled(s: State, a: Action) {
    match a
    case Tick => true
    case Start(t, _) => PcOf(s, t) == Idle
    case LockPool(t) => PcOf(s, t).WantPool? && s.pool.None?
    case LockSchedule(t) => PcOf(s, t).WantSchedule? && s.schedule.None?
    case Commit(t) => PcOf(s, t).Ready?
    case Abort(t) => true
    case PauseStmt => s.pool.None?
    case ResumeStmt => s.pool.None?
  }

  function Act(s: State, a: Action): State
    requires Enabled(s, a)
  {
    match a
    case Tick => s.(clock := s.clock + 1)
    case Start(t, job) => s.(pcs := s.pcs[t := WantPool(job)])
    case LockPool(t) =>
      if Closed(s.row.status) then Release(s, t)
      else s.(pool := Some(t), pcs := s.pcs[t := WantSchedule(PcOf(s, t).job)])
    case LockSchedule(t) =>
      s.(schedule := Some(t), pcs := s.pcs[t := Ready(PcOf(s, t).job, s.row, s.clock)])
    case Commit(t) =>
      var Ready(job, seen, day) := PcOf(s, t);
      if job.AdvanceJob? && seen.lastReset < day then
        var (newDay, newCap, markActive) := NextWarmupDay(seen.dayIndex, seen.plan);
        var status := if markActive then Active else s.row.status;
        Release(s.(row := Row(status, newDay, newCap, 0, day, s.row.plan)), t)
      else if job.ReserveJob? && seen.sentToday < seen.dailyCap then
        Release(s.(row := s.row.(sentToday := s.row.sentToday + 1), granted := s.granted + 1), t)
      else Release(s, t)
    case Abort(t) => Release(s, t)
    case PauseStmt => s.(row := Warmup.Pause(s.row))
    case ResumeStmt => s.(row := Warmup.Resume(s.row))
  }

  /** Only who holds the pool row holds, or asks for, the schedule row; and nobody's reading goes stale. */
  ghost predicate LockInv(s: State) {
    && (forall t :: t in s.pcs ==>
          match s.pcs[t]
          case Ready(_, seen, day) =>
            s.pool == Some(t) && s.schedule == Some(t) && seen == s.row && day <= s.clock && !Closed(s.row.status)
          case WantSchedule(_) => s.pool == Some(t) && s.schedule != Some(t) && !Closed(s.row.status)
          case _ => s.pool != Some(t) && s.schedule != Some(t))
    && (s.pool.Some? ==> s.pool.value in s.pcs)
    && (s.schedule.Some? ==> s.schedule == s.pool)
  }

  /** Where a sequence of actions leads; None when one of them has to wait. */
  function Run(s: State, actions: seq<Action>): Option<State> {
    if actions == [] then Some(s)
    else
      var a := actions[|actions| - 1];
      match Run(s, actions[..|actions| - 1])
      case None => None
      case Some(m) => if Enabled(m, a) then Some(Act(m, a)) else None
  }

  function Quiet(row: Row): State { State(row, row.lastReset, 0, None, None, map[]) }

  /** The one-step transaction an action stands for: none unless it changes the rows or the clock. */
  function StepOf(s: State, a: Action): seq<Step> {
    match a
    case Tick => [Midnight]
    case Commit(t) =>
      var pc := PcOf(s, t);
      if !pc.Ready? then [] else if pc.job.ReserveJob? then [GrantTx] else if pc.day <= s.clock then [AdvanceTx(s.clock - pc.day)] else []
    case PauseStmt => [PauseTx]
    case ResumeStmt => [ResumeTx]
    case _ => []
  }

  ghost predicate Matches(s: State, w: World) {
    w.row == s.row && w.clock == s.clock && TotalGrants(w.epochs) == s.granted
  }

  lemma ActKeepsLockInv(s: State, a: Action)
    requires LockInv(s) && Enabled(s, a)
    ensures LockInv(Act(s, a))
  {
  }

  lemma CountLast(epochs: seq<Epoch>, g: nat)
    requires epochs != []
    ensures var e := epochs[|epochs| - 1];
            TotalGrants(epochs[|epochs| - 1 := e.(grants := e.grants + g)]) == TotalGrants(epochs) + g
  {
    var e := epochs[|epochs| - 1];
    assert epochs[|epochs| - 1 := e.(grants := e.grants + g)][..|epochs| - 1] == epochs[..|epochs| - 1];
  }

  lemma {:induction false} ActIsStep(s: State, a: Action, w: World)
    requires LockInv(s) && Enabled(s, a) && w.epochs != [] && Matches(s, w)
    ensures Matches(Act(s, a), Exec(w, StepOf(s, a)))
  {
    var steps := StepOf(s, a);
    if steps != [] {
      assert steps[..0] == [] && Exec(w, steps) == Next(Exec(w, []), steps[0]);
      CountLast(w.epochs, 1);
      assert (w.epochs + [Epoch(w.clock, 0, 0)])[..|w.epochs|] == w.epochs;
      if a.Commit? {
        var pc := PcOf(s, a.t);
        var e := Epoch(pc.day, Advance(w.row, pc.day).dailyCap, 0);
        assert (w.epochs + [e])[..|w.epochs|] == w.epochs;
      }
    }
  }

  /** Every interleaving of statements has the effect of whole transactions run one after another. */
  lemma {:induction false} RunIsExec(start: Row, actions: seq<Action>, s: State) returns (steps: seq<Step>)
    requires Run(Quiet(start), actions) == Some(s)
    ensures LockInv(s)
    ensures Matches(s, Exec(Begin(start), steps))
  {
    if actions == [] {
      steps := [];
      assert Begin(start).epochs[..0] == [];
    } else {
      var front, last := actions[..|actions| - 1], actions[|actions| - 1];
      var m := Run(Quiet(start), front).value;
      var before := RunIsExec(start, front, m);
      ActKeepsLockInv(m, last);
      ActIsStep(m, last, Exec(Begin(start), before));
      ExecAppend(Begin(start), before, StepOf(m, last));
      steps := before + StepOf(m, last);
    }
  }

  /** So the bound on granted slots holds for the interleaved machine, by its own clock. */
  lemma {:induction false} InterleavedGrantsBounded(start: Row, actions: seq<Action>, s: State)
    requires Started(start, start.lastReset) && Run(Quiet(start), actions) == Some(s)
    ensures start.lastReset <= s.clock && s.granted <= CapSum(start.plan, s.clock - start.lastReset)
    ensures s.row.dailyCap == CapAt(start.plan, s.row.dayIndex) && s.row.sentToday <= s.row.dailyCap
  {
    var steps := RunIsExec(start, actions, s);
    StagesInOrder(start, steps);
    GrantsBounded(start, steps);
    ClockCountsMidnights(Begin(start), steps);
  }

  // ----- No deadlock -----

  predicate WaitsFor(s: State, t: Tid, u: Tid) {
    || (PcOf(s, t).WantPool? && s.pool == Some(u))
    || (PcOf(s, t).WantSchedule? && s.schedule == Some(u))
  }

  /** Whoever is waited for waits for nobody, so there is no cycle; and some busy worker can always go on. */
  lemma {:induction false} NoDeadlock(start: Row, actions: seq<Action>, s: State)
    requires Run(Quiet(start), actions) == Some(s)
    ensures forall t, u, v :: WaitsFor(s, t, u) ==> !WaitsFor(s, u, v)
    ensures forall t :: PcOf(s, t) != Idle ==>
              exists u :: PcOf(s, u) != Idle && (Enabled(s, LockPool(u)) || Enabled(s, LockSchedule(u)) || Enabled(s, Commit(u)))
  {
    var _ := RunIsExec(start, actions, s);
    forall t | PcOf(s, t) != Idle
      ensures exists u :: PcOf(s, u) != Idle && (Enabled(s, LockPool(u)) || Enabled(s, LockSchedule(u)) || Enabled(s, Commit(u)))
    {
      var u := if s.pool.Some? then s.pool.value else t;
      assert u in s.pcs && t in s.pcs;
      assert PcOf(s, u) != Idle;
    }
  }
}
