/**
  Dedicated-IP warmup: a daily send allowance that climbs through a plan, one stage per UTC day.
  A pool row and its schedule row are one `Row`; a UTC day is an `int`.
 */
module Warmup {

  datatype Status = Warming | Active | Paused | Failed

  datatype Row = Row(status: Status, dayIndex: nat, dailyCap: nat, sentToday: nat, lastReset: int, plan: seq<nat>)

  const DEFAULT_PLAN: seq<nat> := [50, 100, 200, 400, 800, 1600, 3200, 6400, 10000, 20000]

  predicate Closed(status: Status) { status == Paused || status == Failed }

  /** The allowance of stage `i`: the plan's entry, its last entry beyond the end, 50 without a plan. */
  function CapAt(plan: seq<nat>, i: nat): nat {
    if plan == [] then 50 else if i < |plan| then plan[i] else plan[|plan| - 1]
  }

  function NextWarmupDay(dayIndex: nat, plan: seq<nat>): (r: (nat, nat, bool))
    ensures r.0 == dayIndex + 1 && r.1 == CapAt(plan, r.0) && (r.2 <==> |plan| <= r.0)
    ensures if plan == [] then r.1 == 50 else if r.0 < |plan| then r.1 == plan[r.0] else r.1 == plan[|plan| - 1]
  {
    var newDay := dayIndex + 1;
    if newDay < |plan| then (newDay, plan[newDay], false)
    else if |plan| > 0 then (newDay, plan[|plan| - 1], true)
    else (newDay, 50, true)
  }

  // ----- The transactions, as functions of the row -----

  predicate Due(row: Row, day: int) { !Closed(row.status) && row.lastReset < day }

  function Advance(row: Row, day: int): Row {
    if !Due(row, day) then row
    else
      var (newDay, newCap, markActive) := NextWarmupDay(row.dayIndex, row.plan);
      Row(if markActive then Active else row.status, newDay, newCap, 0, day, row.plan)
  }

  /** The next stage of the row's plan, opened on this day with nothing sent. */
  function Opened(row: Row, day: int): Row {
    var stage := row.dayIndex + 1;
    var cap := if row.plan == [] then 50 else if stage < |row.plan| then row.plan[stage] else row.plan[|row.plan| - 1];
    Row(if stage < |row.plan| then row.status else Active, stage, cap, 0, day, row.plan)
  }

  datatype Outcome = Granted | NotActive | CapReached | NotFound

  function GrantOutcome(row: Row): Outcome {
    if Closed(row.status) then NotActive
    else if row.sentToday >= row.dailyCap then CapReached
    else Granted
  }

  function Grant(row: Row): Row {
    if GrantOutcome(row) == Granted then row.(sentToday := row.sentToday + 1) else row
  }

  function Pause(row: Row): Row { row.(status := Paused) }

  function Resume(row: Row): Row { if row.status == Paused then row.(status := Warming) else row }

  // ----- The service over its table -----

  type PoolId = nat

  class PoolTable {
    var rows: map<PoolId, Row>

    constructor ()
      ensures rows == map[]
    {
      rows := map[];
    }

    method Create(id: PoolId, today: int)
      requires id !in rows
      modifies this
      ensures rows == old(rows)[id := Row(Warming, 0, 50, 0, today, DEFAULT_PLAN)]
      ensures Started(rows[id], today)
    {
      rows := rows[id := Row(Warming, 0, 50, 0, today, DEFAULT_PLAN)];
    }

    method PausePool(id: PoolId) returns (found: bool)
      modifies this
      ensures found == (id in old(rows))
      ensures rows == if found then old(rows)[id := Pause(old(rows)[id])] else old(rows)
    {
      found := id in rows;
      if found {
        rows := rows[id := rows[id].(status := Paused)];
      }
    }

    method ResumePool(id: PoolId) returns (found: bool)
      modifies this
      ensures found == (id in old(rows))
      ensures rows == if found then old(rows)[id := Resume(old(rows)[id])] else old(rows)
    {
      found := id in rows;
      if found && rows[id].status == Paused {
        rows := rows[id := rows[id].(status := Warming)];
      } else if found {
        assert rows == rows[id := rows[id]];
      }
    }

    method AdvanceWarmupIfDue(id: PoolId, today: int) returns (found: bool, advanced: bool)
      modifies this
      ensures found == (id in old(rows))
      ensures advanced == (found && Due(old(rows)[id], today))
      ensures rows == if found then old(rows)[id := Advance(old(rows)[id], today)] else old(rows)
      ensures advanced <==> id in old(rows) && old(rows)[id].status in {Warming, Active} && old(rows)[id].lastReset < today
      ensures rows == if advanced then old(rows)[id := Opened(old(rows)[id], today)] else old(rows)
    {
      found, advanced := id in rows, false;
      if !found {
        return;
      }
      var row := rows[id];
      assert rows == rows[id := row];
      if row.status == Paused || row.status == Failed {
        return;
      }
      if !(row.lastReset < today) {
        return;
      }
      var (dayIndex, dailyCap, markActive) := NextWarmupDay(row.dayIndex, row.plan);
      if markActive {
        row := row.(status := Active);
      }
      row := row.(dayIndex := dayIndex, dailyCap := dailyCap, sentToday := 0, lastReset := today);
      rows := rows[id := row];
      advanced := true;
    }

    /** The two transactions of a reservation, run back to back. */
    method ReserveSend(id: PoolId, today: int) returns (outcome: Outcome)
      modifies this
      ensures id !in old(rows) ==> outcome == NotFound && rows == old(rows)
      ensures id in old(rows) ==>
                var due := Advance(old(rows)[id], today);
                && rows == old(rows)[id := if outcome == Granted then due.(sentToday := due.sentToday + 1) else due]
                && outcome == if due.status == Paused || due.status == Failed then NotActive
                              else if due.sentToday < due.dailyCap then Granted else CapReached
    {
      var found, _ := AdvanceWarmupIfDue(id, today);
      if !found {
        return NotFound;
      }
      var row := rows[id];
      if row.status == Paused || row.status == Failed {
        return NotActive;
      }
      if row.sentToday >= row.dailyCap {
        return CapReached;
      }
      rows := rows[id := row.(sentToday := row.sentToday + 1)];
      return Granted;
    }

    method TickAllWarmups(today: int) returns (n: nat)
      modifies this
      ensures rows == map id | id in old(rows) :: Advance(old(rows)[id], today)
      ensures n == |DueIds(old(rows), today)|
      ensures forall id :: id in DueIds(old(rows), today) <==>
                id in old(rows) && old(rows)[id].status in {Warming, Active} && old(rows)[id].lastReset < today
    {
      ghost var before := rows;
      var ids := set id | id in rows && (rows[id].status == Warming || rows[id].status == Active) && rows[id].lastReset < today;
      assert ids == DueIds(before, today);
      var left := ids;
      n := 0;
      TickedNone(before, today);
      while left != {}
        invariant left <= ids
        invariant n + |left| == |ids|
        invariant rows == Ticked(before, ids - left, today)
        decreases left
      {
        var id :| id in left;
        TickedOne(before, ids - left, id, today);
        var _, advanced := AdvanceWarmupIfDue(id, today);
        if advanced {
          n := n + 1;
        }
        assert ids - (left - {id}) == (ids - left) + {id};
        left := left - {id};
      }
      assert ids - left == ids;
      TickedAll(before, today);
    }
  }

  function DueIds(rows: map<PoolId, Row>, today: int): set<PoolId> {
    set id | id in rows && Due(rows[id], today)
  }

  /** The table after the pools in `done` had their turn. */
  ghost function Ticked(rows: map<PoolId, Row>, done: set<PoolId>, today: int): map<PoolId, Row> {
    map id | id in rows :: if id in done then Advance(rows[id], today) else rows[id]
  }

  lemma TickedNone(rows: map<PoolId, Row>, today: int)
    ensures forall ids :: Ticked(rows, ids - ids, today) == rows
  {
  }

  lemma TickedOne(rows: map<PoolId, Row>, done: set<PoolId>, id: PoolId, today: int)
    requires id in rows && id !in done
    ensures Ticked(rows, done, today)[id] == rows[id]
    ensures Ticked(rows, done + {id}, today) == Ticked(rows, done, today)[id := Advance(rows[id], today)]
  {
  }

  lemma TickedAll(rows: map<PoolId, Row>, today: int)
    ensures Ticked(rows, DueIds(rows, today), today) == map id | id in rows :: Advance(rows[id], today)
  {
  }

  // ----- Runs: transactions and midnights in any order -----

  /** Everything granted between two resets, with the allowance then in force. */
  datatype Epoch = Epoch(day: int, cap: nat, grants: nat)

  datatype World = World(row: Row, clock: int, epochs: seq<Epoch>)

  /** An advance may have read the clock some time ago: `lag` days before now. */
  datatype Step = Midnight | AdvanceTx(lag: nat) | GrantTx | PauseTx | ResumeTx

  function Last(w: World): Epoch
    requires w.epochs != []
  {
    w.epochs[|w.epochs| - 1]
  }

  function Next(w: World, step: Step): (r: World)
    requires w.epochs != []
    ensures r.epochs != []
  {
    match step
    case Midnight => w.(clock := w.clock + 1)
    case AdvanceTx(lag) =>
      var day := w.clock - lag;
      if Due(w.row, day)
      then w.(row := Advance(w.row, day), epochs := w.epochs + [Epoch(day, Advance(w.row, day).dailyCap, 0)])
      else w
    case GrantTx =>
      if GrantOutcome(w.row) == Granted
      then w.(row := Grant(w.row), epochs := w.epochs[|w.epochs| - 1 := Last(w).(grants := Last(w).grants + 1)])
      else w
    case PauseTx => w.(row := Pause(w.row))
    case ResumeTx => w.(row := Resume(w.row))
  }

  function Exec(w: World, steps: seq<Step>): (r: World)
    requires w.epochs != []
    ensures r.epochs != []
  {
    if steps == [] then w else Next(Exec(w, steps[..|steps| - 1]), steps[|steps| - 1])
  }

  predicate Started(row: Row, day: int) {
    && row.status == Warming && row.dayIndex == 0 && row.sentToday == 0 && row.lastReset == day
    && row.dailyCap == 50 && (row.plan == [] || row.plan[0] == 50)
  }

  function Begin(row: Row): World { World(row, row.lastReset, [Epoch(row.lastReset, row.dailyCap, 0)]) }

  ghost predicate Inv(w: World, start: Row) {
    && w.row.plan == start.plan
    && |w.epochs| == w.row.dayIndex + 1
    && (forall i :: 0 <= i < |w.epochs| ==> w.epochs[i].cap == CapAt(start.plan, i) && w.epochs[i].grants <= w.epochs[i].cap)
    && (forall i :: 0 <= i < |w.epochs| - 1 ==> w.epochs[i].day < w.epochs[i + 1].day)
    && w.epochs[0].day == start.lastReset
    && Last(w) == Epoch(w.row.lastReset, w.row.dailyCap, w.row.sentToday)
    && w.row.lastReset <= w.clock
    && (w.row.status == Active ==> |start.plan| <= w.row.dayIndex)
  }

  lemma NextKeepsInv(w: World, start: Row, step: Step)
    requires w.epochs != [] && Inv(w, start)
    ensures Inv(Next(w, step), start)
  {
  }

  /**
    Over every run the allowances are the plan's stages in order, the last one repeated, each on a later
    day than the one before; what was granted under an allowance never exceeds it; `active` means the plan is finished.
   */
  lemma {:induction false} StagesInOrder(start: Row, steps: seq<Step>)
    requires Started(start, start.lastReset)
    ensures Inv(Exec(Begin(start), steps), start)
  {
    if steps != [] {
      StagesInOrder(start, steps[..|steps| - 1]);
      NextKeepsInv(Exec(Begin(start), steps[..|steps| - 1]), start, steps[|steps| - 1]);
    }
  }

  function Midnights(steps: seq<Step>): nat {
    if steps == [] then 0 else Midnights(steps[..|steps| - 1]) + if steps[|steps| - 1] == Midnight then 1 else 0
  }

  lemma {:induction false} ClockCountsMidnights(w: World, steps: seq<Step>)
    requires w.epochs != []
    ensures Exec(w, steps).clock == w.clock + Midnights(steps)
  {
    if steps != [] {
      ClockCountsMidnights(w, steps[..|steps| - 1]);
    }
  }

  function TotalGrants(epochs: seq<Epoch>): nat {
    if epochs == [] then 0 else TotalGrants(epochs[..|epochs| - 1]) + epochs[|epochs| - 1].grants
  }

  /** cap(0) + ... + cap(k) */
  function CapSum(plan: seq<nat>, k: nat): nat {
    CapAt(plan, k) + if k == 0 then 0 else CapSum(plan, k - 1)
  }

  lemma {:induction false} EpochsAreDaysApart(epochs: seq<Epoch>, i: nat)
    requires i < |epochs| && forall j :: 0 <= j < |epochs| - 1 ==> epochs[j].day < epochs[j + 1].day
    ensures epochs[0].day + i <= epochs[i].day
  {
    if i > 0 { EpochsAreDaysApart(epochs, i - 1); }
  }

  lemma {:induction false} GrantsWithinCaps(epochs: seq<Epoch>, plan: seq<nat>, k: nat)
    requires |epochs| <= k + 1
    requires forall i :: 0 <= i < |epochs| ==> epochs[i].cap == CapAt(plan, i) && epochs[i].grants <= epochs[i].cap
    ensures TotalGrants(epochs) <= CapSum(plan, k)
    decreases k
  {
    var front := if |epochs| == k + 1 then epochs[..k] else epochs;
    if k == 0 {
      assert |epochs| == 1 ==> TotalGrants(epochs[..0]) == 0;
    } else {
      GrantsWithinCaps(front, plan, k - 1);
    }
  }

  /** After k midnights at most cap(0) + ... + cap(k) slots were granted, whatever the interleaving. */
  lemma {:induction false} GrantsBounded(start: Row, steps: seq<Step>)
    requires Started(start, start.lastReset)
    ensures TotalGrants(Exec(Begin(start), steps).epochs) <= CapSum(start.plan, Midnights(steps))
  {
    var w := Exec(Begin(start), steps);
    StagesInOrder(start, steps);
    ClockCountsMidnights(Begin(start), steps);
    EpochsAreDaysApart(w.epochs, |w.epochs| - 1);
    GrantsWithinCaps(w.epochs, start.plan, Midnights(steps));
  }

  lemma Caps(k: nat)
    requires k < |DEFAULT_PLAN|
    ensures CapAt(DEFAULT_PLAN, k) == DEFAULT_PLAN[k]
  {
  }

  lemma {:induction false} FlatTail(k: nat)
    requires k >= 9
    ensures CapSum(DEFAULT_PLAN, k) == 22750 + 20000 * (k - 8)
  {
    if k == 9 {
      FirstNine();
      Caps(9);
    } else {
      FlatTail(k - 1);
      assert CapAt(DEFAULT_PLAN, k) == 20000;
    }
  }

  lemma FirstNine()
    ensures CapSum(DEFAULT_PLAN, 8) == 22750
  {
    assert CapSum(DEFAULT_PLAN, 2) == 350;
    assert CapSum(DEFAULT_PLAN, 5) == 3150;
    assert CapSum(DEFAULT_PLAN, 7) == 12750;
  }

  /** A new pool sends at most 22750 messages in its first nine days, and 20000 a day after that. */
  lemma {:induction false} DefaultPlanBound(start: Row, steps: seq<Step>)
    requires Started(start, start.lastReset) && start.plan == DEFAULT_PLAN && Midnights(steps) >= 8
    ensures TotalGrants(Exec(Begin(start), steps).epochs) <= 22750 + 20000 * (Midnights(steps) - 8)
  {
    GrantsBounded(start, steps);
    if Midnights(steps) == 8 { FirstNine(); } else { FlatTail(Midnights(steps)); }
  }

  // ----- The bound is reached -----

  function Grants(n: nat): seq<Step> { if n == 0 then [] else Grants(n - 1) + [GrantTx] }

  /** One more day in the life of a sender that takes all it can. */
  function DayOf(plan: seq<nat>, k: nat): seq<Step> { [Midnight, AdvanceTx(0)] + Grants(CapAt(plan, k)) }

  function GreedyRun(plan: seq<nat>, k: nat): seq<Step> {
    if k == 0 then Grants(CapAt(plan, 0)) else GreedyRun(plan, k - 1) + DayOf(plan, k)
  }

  lemma {:induction false} ExecAppend(w: World, a: seq<Step>, b: seq<Step>)
    requires w.epochs != []
    ensures Exec(w, a + b) == Exec(Exec(w, a), b)
  {
    if b == [] {
      assert a + b == a;
    } else {
      assert (a + b)[..|a + b| - 1] == a + b[..|b| - 1];
      ExecAppend(w, a, b[..|b| - 1]);
    }
  }

  lemma {:induction false} MidnightsAppend(a: seq<Step>, b: seq<Step>)
    ensures Midnights(a + b) == Midnights(a) + Midnights(b)
  {
    if b == [] {
      assert a + b == a;
    } else {
      assert (a + b)[..|a + b| - 1] == a + b[..|b| - 1];
      MidnightsAppend(a, b[..|b| - 1]);
    }
  }

  lemma {:induction false} NoMidnightInGrants(n: nat)
    ensures Midnights(Grants(n)) == 0
  {
    if n > 0 {
      NoMidnightInGrants(n - 1);
      assert Grants(n)[..|Grants(n)| - 1] == Grants(n - 1);
    }
  }

  lemma {:induction false} OneStep(w: World, step: Step)
    requires w.epochs != []
    ensures Exec(w, [step]) == Next(w, step)
  {
    assert [step][..0] == [] && Exec(w, []) == w;
  }

  lemma {:induction false} GrantsFill(w: World, n: nat)
    requires w.epochs != [] && !Closed(w.row.status)
    requires w.row.sentToday + n <= w.row.dailyCap
    ensures var r := Exec(w, Grants(n));
            && r.row == w.row.(sentToday := w.row.sentToday + n) && r.clock == w.clock
            && TotalGrants(r.epochs) == TotalGrants(w.epochs) + n
  {
    if n > 0 {
      GrantsFill(w, n - 1);
      assert Grants(n)[..|Grants(n)| - 1] == Grants(n - 1);
      var r := Exec(w, Grants(n - 1));
      assert Next(r, GrantTx).epochs[..|r.epochs| - 1] == r.epochs[..|r.epochs| - 1];
    }
  }

  lemma {:induction false} OneDay(w: World)
    requires w.epochs != [] && !Closed(w.row.status) && w.row.lastReset == w.clock
    ensures var r := Exec(w, [Midnight, AdvanceTx(0)]);
            && r == World(Advance(w.row, w.clock + 1), w.clock + 1, w.epochs + [Epoch(w.clock + 1, r.row.dailyCap, 0)])
            && r.row.dayIndex == w.row.dayIndex + 1 && !Closed(r.row.status) && r.row.plan == w.row.plan
            && r.row.dailyCap == CapAt(w.row.plan, r.row.dayIndex) && r.row.sentToday == 0 && r.row.lastReset == r.clock
            && TotalGrants(r.epochs) == TotalGrants(w.epochs)
  {
    var night := Next(w, Midnight);
    assert [Midnight, AdvanceTx(0)] == [Midnight] + [AdvanceTx(0)];
    OneStep(w, Midnight);
    OneStep(night, AdvanceTx(0));
    ExecAppend(w, [Midnight], [AdvanceTx(0)]);
    assert Next(night, AdvanceTx(0)).epochs[..|w.epochs|] == w.epochs;
  }

  ghost predicate Drained(start: Row, k: nat, r: World) {
    && !Closed(r.row.status) && r.row.dayIndex == k && r.row.lastReset == r.clock && r.row.plan == start.plan
    && TotalGrants(r.epochs) == CapSum(start.plan, k)
  }

  lemma {:induction false} DrainDay(start: Row, k: nat, w: World)
    requires w.epochs != [] && Drained(start, k, w)
    ensures Drained(start, k + 1, Exec(w, DayOf(start.plan, k + 1)))
  {
    hide Exec, Advance, Grants, TotalGrants, CapAt, Closed;
    var n := CapAt(start.plan, k + 1);
    OneDay(w);
    GrantsFill(Exec(w, [Midnight, AdvanceTx(0)]), n);
    ExecAppend(w, [Midnight, AdvanceTx(0)], Grants(n));
  }

  lemma OneMidnight(plan: seq<nat>, k: nat)
    ensures Midnights(DayOf(plan, k)) == 1
  {
    MidnightsAppend([Midnight, AdvanceTx(0)], Grants(CapAt(plan, k)));
    NoMidnightInGrants(CapAt(plan, k));
    assert [Midnight, AdvanceTx(0)][..1] == [Midnight] && [Midnight][..0] == [];
    assert Midnights([Midnight]) == 1;
  }

  lemma FirstDay(start: Row)
    requires Started(start, start.lastReset)
    ensures Midnights(GreedyRun(start.plan, 0)) == 0
    ensures Drained(start, 0, Exec(Begin(start), GreedyRun(start.plan, 0)))
  {
    assert Begin(start).epochs[..0] == [];
    GrantsFill(Begin(start), CapAt(start.plan, 0));
    NoMidnightInGrants(CapAt(start.plan, 0));
  }

  lemma OneMoreDay(start: Row, k: nat)
    ensures Midnights(GreedyRun(start.plan, k + 1)) == Midnights(GreedyRun(start.plan, k)) + 1
    ensures Exec(Begin(start), GreedyRun(start.plan, k + 1))
         == Exec(Exec(Begin(start), GreedyRun(start.plan, k)), DayOf(start.plan, k + 1))
  {
    hide Exec, DayOf, Midnights;
    var run, day := GreedyRun(start.plan, k), DayOf(start.plan, k + 1);
    OneMidnight(start.plan, k + 1);
    MidnightsAppend(run, day);
    ExecAppend(Begin(start), run, day);
  }

  /** A sender that drains every allowance gets exactly the bound. */
  lemma {:induction false} BoundIsAttained(start: Row, k: nat)
    requires Started(start, start.lastReset)
    ensures Midnights(GreedyRun(start.plan, k)) == k
    ensures Drained(start, k, Exec(Begin(start), GreedyRun(start.plan, k)))
  {
    hide Exec, Midnights, GreedyRun, DayOf, Drained;
    if k == 0 {
      FirstDay(start);
    } else {
      BoundIsAttained(start, k - 1);
      OneMoreDay(start, k - 1);
      DrainDay(start, k - 1, Exec(Begin(start), GreedyRun(start.plan, k - 1)));
    }
  }

  // ----- Pausing -----

  /** Until it is resumed, a paused pool neither grants nor advances, however many days go by. */
  lemma {:induction false} PausedIsFrozen(w: World, steps: seq<Step>)
    requires w.epochs != [] && w.row.status == Paused && ResumeTx !in steps
    ensures Exec(w, steps).row == w.row && Exec(w, steps).epochs == w.epochs
  {
    if steps != [] {
      assert steps[|steps| - 1] in steps && steps[|steps| - 1] != ResumeTx;
      PausedIsFrozen(w, steps[..|steps| - 1]);
    }
  }

  /** A pause of any length costs no stage: after resuming, the next reset opens the very next one. */
  lemma {:induction false} PauseSkipsNothing(w: World, start: Row, idle: seq<Step>)
    requires w.epochs != [] && Inv(w, start) && ResumeTx !in idle && Midnights(idle) > 0
    ensures var r := Exec(w, [PauseTx] + idle + [ResumeTx, AdvanceTx(0)]);
            r.row.dayIndex == w.row.dayIndex + 1 && r.row.dailyCap == CapAt(start.plan, w.row.dayIndex + 1)
  {
    var back := [ResumeTx, AdvanceTx(0)];
    ExecAppend(w, [PauseTx] + idle, back);
    ExecAppend(w, [PauseTx], idle);
    OneStep(w, PauseTx);
    var paused := Exec(w, [PauseTx]);
    PausedIsFrozen(paused, idle);
    ClockCountsMidnights(paused, idle);
    var rested := Exec(paused, idle);
    ExecAppend(rested, [ResumeTx], [AdvanceTx(0)]);
    OneStep(rested, ResumeTx);
    OneStep(Exec(rested, [ResumeTx]), AdvanceTx(0));
    ResumeAdvances(rested);
    hide Exec, Next, Midnights;
    assert back == [ResumeTx] + [AdvanceTx(0)];
  }

  lemma ResumeAdvances(w: World)
    requires w.epochs != [] && w.row.status == Paused && w.row.lastReset < w.clock
    ensures var r := Next(Next(w, ResumeTx), AdvanceTx(0)).row;
            r.dayIndex == w.row.dayIndex + 1 && r.dailyCap == CapAt(w.row.plan, r.dayIndex)
  {
  }
}
