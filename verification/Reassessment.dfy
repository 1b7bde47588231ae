/**
Scheduled re-assessments. The stamp and the request are one transaction, and the
query reads the later of the stamp and the last assessment, so a plan's cadence is a
floor on how often one application is re-tested, whatever becomes of the runs: as long
as no two sweeps are at it at once, which is what the guard is for, or a request lives
longer than a sweep takes, which is what the one-live-request index is for.
*/
module Reassessment {
  import opened Options
  import SweepGuard

  type AppId = nat
  type Instant = int

  const DAY: int := 86_400_000
  const EPOCH: Instant := 0

  datatype Plan = Free | OneOff | Certified | Agency | Organisation

  function ReassessEveryDays(plan: Plan): Option<nat> {
    match plan
    case Free => None
    case OneOff => None
    case Certified => Some(30)
    case Agency => Some(30)
    case Organisation => Some(14)
  }

  /** `stamp` is `last_reassessed_at`; `assessed` the latest approved or published assessment, if there is one. */
  datatype App = App(plan: Plan, stamp: Option<Instant>, assessed: Option<Instant>, authorised: bool, live: Live)

  /** The one request of an application that is queued or claimed: a scheduled one, or any other. */
  datatype Live = NoRequest | OtherRequest | Scheduled(since: Instant)

  datatype Request = Request(app: AppId, at: Instant, plan: Plan)

  function OrEpoch(at: Option<Instant>): Instant {
    if at.Some? then at.value else EPOCH
  }

  function LastAssessed(app: App): Instant {
    if OrEpoch(app.stamp) >= OrEpoch(app.assessed) then OrEpoch(app.stamp) else OrEpoch(app.assessed)
  }

  predicate CadenceIsUp(plan: Plan, last: Instant, asked: Instant) {
    ReassessEveryDays(plan).Some? && last + ReassessEveryDays(plan).value * DAY <= asked
  }

  /** What the query selects, by the sweep's own clock. */
  predicate IsDue(app: App, asked: Instant) {
    app.authorised && app.live.NoRequest? && LastAssessed(app) > EPOCH && CadenceIsUp(app.plan, LastAssessed(app), asked)
  }

  /** One selected row: the application, and what the query read of it. */
  datatype DueApp = DueApp(id: AppId, plan: Plan, last: Instant)

  datatype Schedule = Schedule(apps: map<AppId, App>, requests: seq<Request>)

  /** The foreign key, and the unique index on an application's queued and claimed requests. */
  predicate Admits(apps: map<AppId, App>, id: AppId) {
    id in apps && apps[id].live.NoRequest?
  }

  /** The database's clock at each transaction, and whether each commits. */
  datatype Answers = Answers(times: nat -> Instant, commits: nat -> bool)

  predicate Inserted(s: Schedule, row: DueApp, asked: Instant, commits: bool) {
    CadenceIsUp(row.plan, row.last, asked) && Admits(s.apps, row.id) && commits
  }

  /** One row's transaction, at the database's clock. */
  function QueueOne(s: Schedule, row: DueApp, asked: Instant, at: Instant, commits: bool): Schedule {
    if Inserted(s, row, asked, commits) then
      Schedule(s.apps[row.id := s.apps[row.id].(stamp := Some(at), live := Scheduled(at))],
               s.requests + [Request(row.id, at, row.plan)])
    else s
  }

  function QueueFrom(s: Schedule, page: seq<DueApp>, i: nat, asked: Instant, answers: Answers): Schedule
    requires i <= |page|
    decreases |page| - i
  {
    if i == |page| then s
    else QueueFrom(QueueOne(s, page[i], asked, answers.times(i), answers.commits(i)), page, i + 1, asked, answers)
  }

  class Scheduler {
    var apps: map<AppId, App>
    var requests: seq<Request>

    ghost function Value(): Schedule
      reads this
    {
      Schedule(apps, requests)
    }

    /**
    The rule the query applied is asked again of each row; then stamp and insert commit together or
    not at all, and not beside a request that is live.
    */
    method SweepScheduledReassessments(page: seq<DueApp>, asked: Instant, answers: Answers) returns (queued: nat)
      modifies this
      ensures Value() == QueueFrom(old(Value()), page, 0, asked, answers)
      ensures |requests| == |old(requests)| + queued
    {
      queued := 0;
      for i := 0 to |page|
        invariant QueueFrom(Value(), page, i, asked, answers) == QueueFrom(old(Value()), page, 0, asked, answers)
        invariant |requests| == |old(requests)| + queued
      {
        var row := page[i];
        if CadenceIsUp(row.plan, row.last, asked) {
          if Admits(apps, row.id) && answers.commits(i) {
            requests := requests + [Request(row.id, answers.times(i), row.plan)];
            apps := apps[row.id := apps[row.id].(stamp := Some(answers.times(i)), live := Scheduled(answers.times(i)))];
            queued := queued + 1;
          }
        }
      }
    }
  }

  // ----- several processes, each with its own guard -------------------------

  type FlightId = nat

  /** The name the guard knows this sweep by. */
  const SWEEP: SweepGuard.Name := 0

  /**
  Whether sweeps go through the guard; how far a process's clock may run ahead of the
  database's; how long after its reading a sweep may come to a row; and how soon after it
  was made a request may be finished, failed or cancelled.
  */
  datatype Setting = Setting(guarded: bool, skew: nat, lag: nat, life: nat)

  /**
  One sweep that has not settled: the clock it began by, the rows it has still to queue,
  and how many requests there were, and when, at its reading.
  */
  datatype Flight = Flight(process: nat, asked: Instant, read: bool, rows: seq<DueApp>, seen: nat, readAt: Instant)

  datatype World = World(
    clock: Instant,
    schedule: Schedule,
    guards: seq<SweepGuard.State>,
    flights: map<FlightId, Flight>
  )

  /**
  `at` is the database's clock. `Ask` is any other request becoming live, `End` the live one
  ceasing to be, and `Change` is everything else that happens to an application.
  */
  datatype Step =
    | Tick(at: Instant, process: nat, id: FlightId, asked: Instant)
    | Read(at: Instant, id: FlightId, page: seq<DueApp>)
    | Queue(at: Instant, id: FlightId, commits: bool)
    | Settle(at: Instant, id: FlightId)
    | Die(at: Instant, process: nat)
    | Ask(at: Instant, app: AppId)
    | End(at: Instant, app: AppId)
    | Change(at: Instant, app: AppId, plan: Plan, assessed: Option<Instant>, authorised: bool)

  /** What the query returns: due rows of the table, each application once. */
  predicate PageRead(s: Schedule, page: seq<DueApp>, asked: Instant) {
    && (forall k | 0 <= k < |page| ::
          page[k].id in s.apps && IsDue(s.apps[page[k].id], asked)
          && page[k].plan == s.apps[page[k].id].plan && page[k].last == LastAssessed(s.apps[page[k].id]))
    && forall k, l | 0 <= k < l < |page| :: page[k].id != page[l].id
  }

  predicate MayEnd(setting: Setting, live: Live, at: Instant) {
    match live
    case NoRequest => false
    case OtherRequest => true
    case Scheduled(since) => since + setting.life <= at
  }

  predicate Enabled(setting: Setting, w: World, step: Step) {
    w.clock <= step.at &&
    match step
    case Tick(at, process, id, asked) => process < |w.guards| && id !in w.flights && asked <= at + setting.skew
    case Read(_, id, page) => id in w.flights && !w.flights[id].read && PageRead(w.schedule, page, w.flights[id].asked)
    case Queue(at, id, _) => id in w.flights && w.flights[id].rows != [] && at <= w.flights[id].readAt + setting.lag
    case Settle(_, id) => id in w.flights && w.flights[id].process < |w.guards|
    case Die(_, process) => process < |w.guards|
    case Ask(_, app) => Admits(w.schedule.apps, app)
    case End(at, app) => app in w.schedule.apps && MayEnd(setting, w.schedule.apps[app].live, at)
    case Change(_, _, _, _, _) => true
  }

  predicate Starts(setting: Setting, w: World, process: nat)
    requires process < |w.guards|
  {
    setting.guarded ==> SweepGuard.IsFree(w.guards[process], SWEEP)
  }

  function Ticked(setting: Setting, w: World, at: Instant, process: nat, id: FlightId, asked: Instant): World
    requires process < |w.guards|
  {
    if !Starts(setting, w, process) then w
    else w.(
      guards := if setting.guarded then w.guards[process := SweepGuard.AfterOnce(w.guards[process], SWEEP, asked)] else w.guards,
      flights := w.flights[id := Flight(process, asked, false, [], |w.schedule.requests|, at)])
  }

  function Settled(setting: Setting, w: World, id: FlightId): World
    requires id in w.flights && w.flights[id].process < |w.guards|
  {
    var process := w.flights[id].process;
    w.(
      guards := if setting.guarded then w.guards[process := SweepGuard.AfterSettled(w.guards[process], SWEEP)] else w.guards,
      flights := w.flights - {id})
  }

  const NEWCOMER := App(Free, None, None, false, NoRequest)

  function WithApp(w: World, id: AppId, app: App): World {
    w.(schedule := w.schedule.(apps := w.schedule.apps[id := app]))
  }

  function Acted(setting: Setting, w: World, step: Step): World
    requires Enabled(setting, w, step)
  {
    match step
    case Tick(at, process, id, asked) => Ticked(setting, w, at, process, id, asked)
    case Read(at, id, page) =>
      w.(flights := w.flights[id := w.flights[id].(read := true, rows := page, seen := |w.schedule.requests|, readAt := at)])
    case Queue(at, id, commits) =>
      var f := w.flights[id];
      w.(schedule := QueueOne(w.schedule, f.rows[0], f.asked, at, commits), flights := w.flights[id := f.(rows := f.rows[1..])])
    case Settle(_, id) => Settled(setting, w, id)
    case Die(_, process) =>
      w.(
        guards := w.guards[process := SweepGuard.NEW],
        flights := map id | id in w.flights && w.flights[id].process != process :: w.flights[id])
    case Ask(_, app) => WithApp(w, app, w.schedule.apps[app].(live := OtherRequest))
    case End(_, app) => WithApp(w, app, w.schedule.apps[app].(live := NoRequest))
    case Change(_, app, plan, assessed, authorised) =>
      var was := if app in w.schedule.apps then w.schedule.apps[app] else NEWCOMER;
      WithApp(w, app, App(plan, was.stamp, assessed, authorised, was.live))
  }

  function Apply(setting: Setting, w: World, step: Step): World
    requires Enabled(setting, w, step)
  {
    Acted(setting, w, step).(clock := step.at)
  }

  datatype Run = Run(worlds: seq<World>, steps: seq<Step>)

  predicate StepTaken(setting: Setting, run: Run, i: nat)
    requires i < |run.steps| && |run.worlds| == |run.steps| + 1
  {
    Enabled(setting, run.worlds[i], run.steps[i]) && run.worlds[i + 1] == Apply(setting, run.worlds[i], run.steps[i])
  }

  function Start(processes: nat): World {
    World(EPOCH, Schedule(map[], []), seq(processes, _ => SweepGuard.NEW), map[])
  }

  ghost predicate IsRun(setting: Setting, processes: nat, run: Run) {
    && |run.worlds| == |run.steps| + 1 && run.worlds[0] == Start(processes)
    && forall i | 0 <= i < |run.steps| :: StepTaken(setting, run, i)
  }

  // ----- what every step keeps ----------------------------------------------

  predicate ApartBy(requests: seq<Request>, j: nat, k: nat, skew: nat)
    requires j < k < |requests|
  {
    && ReassessEveryDays(requests[k].plan).Some?
    && requests[k].at - requests[j].at >= ReassessEveryDays(requests[k].plan).value * DAY - skew
  }

  /** A request is no earlier than its plan's cadence after any before it for the same application, but for the skew. */
  predicate Spaced(requests: seq<Request>, skew: nat) {
    forall j, k | 0 <= j < k < |requests| && requests[j].app == requests[k].app :: ApartBy(requests, j, k, skew)
  }

  /** Every request left its stamp, and no stamp is older than any request it followed. */
  predicate StampsHold(s: Schedule) {
    forall j | 0 <= j < |s.requests| ::
      var id := s.requests[j].app;
      id in s.apps && s.apps[id].stamp.Some? && s.apps[id].stamp.value >= s.requests[j].at
  }

  /** Requests are in the order of the database's clock, and of plans that have a cadence. */
  predicate Ordered(requests: seq<Request>, clock: Instant) {
    && (forall j, k | 0 <= j < k < |requests| :: requests[j].at <= requests[k].at)
    && (forall j | 0 <= j < |requests| :: requests[j].at <= clock && ReassessEveryDays(requests[j].plan).Some?)
  }

  /** A row was due by the sweep's clock, and what it read is no older than any request there was at the reading. */
  predicate RowTrue(requests: seq<Request>, f: Flight, row: DueApp) {
    && CadenceIsUp(row.plan, row.last, f.asked)
    && f.seen <= |requests|
    && forall j | 0 <= j < f.seen && requests[j].app == row.id :: requests[j].at <= row.last
  }

  predicate FlightTrue(setting: Setting, w: World, f: Flight) {
    var requests := w.schedule.requests;
    && f.asked <= w.clock + setting.skew && f.readAt <= w.clock && f.seen <= |requests| && f.process < |w.guards|
    && (!f.read ==> f.rows == [])
    && (forall k | 0 <= k < |f.rows| :: f.rows[k].id in w.schedule.apps && RowTrue(requests, f, f.rows[k]))
    && (forall k, l | 0 <= k < l < |f.rows| :: f.rows[k].id != f.rows[l].id)
    && (forall j | f.seen <= j < |requests| :: f.readAt <= requests[j].at)
  }

  predicate WorldTrue(setting: Setting, w: World) {
    && StampsHold(w.schedule) && Ordered(w.schedule.requests, w.clock)
    && forall id | id in w.flights :: FlightTrue(setting, w, w.flights[id])
  }

  /** A flight stays true as its rows go, the clock moves on and requests are added at the clock. */
  lemma FlightStaysTrue(setting: Setting, w: World, t: World, f: Flight, gone: nat)
    requires FlightTrue(setting, w, f) && gone <= |f.rows| && w.clock <= t.clock && |w.guards| == |t.guards|
    requires w.schedule.requests <= t.schedule.requests && w.schedule.apps.Keys <= t.schedule.apps.Keys
    requires forall j | |w.schedule.requests| <= j < |t.schedule.requests| :: w.clock <= t.schedule.requests[j].at
    ensures FlightTrue(setting, t, f.(rows := f.rows[gone..]))
  {
    var rows := f.rows[gone..];
    forall k | 0 <= k < |rows|
      ensures rows[k].id in t.schedule.apps && RowTrue(t.schedule.requests, f.(rows := rows), rows[k])
    {
      assert RowTrue(w.schedule.requests, f, f.rows[k + gone]);
    }
  }

  lemma QueueKeepsWorldTrue(setting: Setting, w: World, at: Instant, id: FlightId, commits: bool)
    requires WorldTrue(setting, w) && Enabled(setting, w, Queue(at, id, commits))
    ensures WorldTrue(setting, Apply(setting, w, Queue(at, id, commits)))
  {
    var t := Apply(setting, w, Queue(at, id, commits));
    forall other | other in t.flights ensures FlightTrue(setting, t, t.flights[other]) {
      var gone := if other == id then 1 else 0;
      FlightStaysTrue(setting, w, t, w.flights[other], gone);
      assert t.flights[other] == w.flights[other].(rows := w.flights[other].rows[gone..]);
    }
  }

  lemma ReadKeepsWorldTrue(setting: Setting, w: World, at: Instant, id: FlightId, page: seq<DueApp>)
    requires WorldTrue(setting, w) && Enabled(setting, w, Read(at, id, page))
    ensures WorldTrue(setting, Apply(setting, w, Read(at, id, page)))
  {
    var t := Apply(setting, w, Read(at, id, page));
    forall other | other in t.flights ensures FlightTrue(setting, t, t.flights[other]) {
      assert FlightTrue(setting, w, w.flights[other]);
      if other == id {
        forall k | 0 <= k < |page| ensures RowTrue(t.schedule.requests, t.flights[id], page[k]) {
          assert page[k].last >= OrEpoch(w.schedule.apps[page[k].id].stamp);
        }
      }
    }
  }

  /** A step that leaves the requests and the stamps alone, and flights at most gone. */
  lemma AsideKeepsWorldTrue(setting: Setting, w: World, t: World)
    requires WorldTrue(setting, w) && w.clock <= t.clock && |w.guards| == |t.guards|
    requires t.schedule.requests == w.schedule.requests && StampsHold(t.schedule)
    requires w.schedule.apps.Keys <= t.schedule.apps.Keys
    requires forall id | id in t.flights :: id in w.flights && t.flights[id] == w.flights[id]
    ensures WorldTrue(setting, t)
  {
    forall id | id in t.flights ensures FlightTrue(setting, t, t.flights[id]) {
      FlightStaysTrue(setting, w, t, w.flights[id], 0);
      assert t.flights[id] == w.flights[id].(rows := w.flights[id].rows[0..]);
    }
  }

  lemma TickKeepsWorldTrue(setting: Setting, w: World, step: Step)
    requires WorldTrue(setting, w) && Enabled(setting, w, step) && step.Tick?
    ensures WorldTrue(setting, Apply(setting, w, step))
  {
    var t := Apply(setting, w, step);
    AsideKeepsWorldTrue(setting, w, t.(flights := w.flights));
    forall id | id in t.flights ensures FlightTrue(setting, t, t.flights[id]) {
      assert id in w.flights ==> FlightTrue(setting, t.(flights := w.flights), w.flights[id]);
    }
  }

  lemma StepKeepsWorldTrue(setting: Setting, w: World, step: Step)
    requires WorldTrue(setting, w) && Enabled(setting, w, step)
    ensures WorldTrue(setting, Apply(setting, w, step))
  {
    match step {
      case Tick(_, _, _, _) => TickKeepsWorldTrue(setting, w, step);
      case Read(at, id, page) => ReadKeepsWorldTrue(setting, w, at, id, page);
      case Queue(at, id, commits) => QueueKeepsWorldTrue(setting, w, at, id, commits);
      case _ => AsideKeepsWorldTrue(setting, w, Apply(setting, w, step));
    }
  }

  lemma {:induction false} TrueAlways(setting: Setting, processes: nat, run: Run, i: nat)
    requires IsRun(setting, processes, run) && i < |run.worlds|
    ensures WorldTrue(setting, run.worlds[i])
    decreases i
  {
    if i > 0 {
      TrueAlways(setting, processes, run, i - 1);
      assert StepTaken(setting, run, i - 1);
      StepKeepsWorldTrue(setting, run.worlds[i - 1], run.steps[i - 1]);
    }
  }

  // ----- spaced exactly when nothing got in between -------------------------

  /** A row's transaction that makes a request. */
  predicate Makes(w: World, step: Step) {
    step.Queue? && step.id in w.flights && w.flights[step.id].rows != []
    && Inserted(w.schedule, w.flights[step.id].rows[0], w.flights[step.id].asked, step.commits)
  }

  /** Some request for the application was made since the sweep read. */
  predicate MadeSince(w: World, f: Flight, app: AppId) {
    exists j | f.seen <= j < |w.schedule.requests| :: w.schedule.requests[j].app == app
  }

  /** A request is made only where none was since the sweep's reading. */
  predicate Undisturbed(w: World, step: Step) {
    Makes(w, step) ==> !MadeSince(w, w.flights[step.id], w.flights[step.id].rows[0].id)
  }

  ghost predicate AllUndisturbed(run: Run, i: nat)
    requires i <= |run.steps| && |run.worlds| == |run.steps| + 1
  {
    forall k | 0 <= k < i :: Undisturbed(run.worlds[k], run.steps[k])
  }

  /** A request is made within its plan's cadence of the reading, less the skew. */
  predicate Brisk(setting: Setting, w: World, step: Step) {
    Makes(w, step) ==>
      var f := w.flights[step.id];
      step.at - f.readAt < ReassessEveryDays(f.rows[0].plan).value * DAY - setting.skew
  }

  ghost predicate AllBrisk(setting: Setting, run: Run)
    requires |run.worlds| == |run.steps| + 1
  {
    forall k | 0 <= k < |run.steps| :: Brisk(setting, run.worlds[k], run.steps[k])
  }

  lemma UndisturbedStepIsSpaced(setting: Setting, w: World, step: Step)
    requires WorldTrue(setting, w) && Enabled(setting, w, step) && Undisturbed(w, step)
    requires Spaced(w.schedule.requests, setting.skew)
    ensures Spaced(Apply(setting, w, step).schedule.requests, setting.skew)
  {
    var was, now := w.schedule.requests, Apply(setting, w, step).schedule.requests;
    assert forall j, k | 0 <= j < k < |was| && was[j].app == was[k].app :: ApartBy(was, j, k, setting.skew);
    if Makes(w, step) {
      var f := w.flights[step.id];
      assert FlightTrue(setting, w, f) && RowTrue(was, f, f.rows[0]);
      forall j | 0 <= j < |was| && was[j].app == f.rows[0].id ensures ApartBy(now, j, |was|, setting.skew) {
        assert j < f.seen;
      }
    }
  }

  lemma {:induction false} UndisturbedIsSpaced(setting: Setting, processes: nat, run: Run, i: nat)
    requires IsRun(setting, processes, run) && i < |run.worlds| && AllUndisturbed(run, i)
    ensures Spaced(run.worlds[i].schedule.requests, setting.skew)
    decreases i
  {
    if i > 0 {
      UndisturbedIsSpaced(setting, processes, run, i - 1);
      TrueAlways(setting, processes, run, i - 1);
      assert StepTaken(setting, run, i - 1) && Undisturbed(run.worlds[i - 1], run.steps[i - 1]);
      UndisturbedStepIsSpaced(setting, run.worlds[i - 1], run.steps[i - 1]);
    }
  }

  lemma {:induction false} RequestsStay(setting: Setting, processes: nat, run: Run, i: nat, j: nat)
    requires IsRun(setting, processes, run) && i <= j < |run.worlds|
    ensures run.worlds[i].schedule.requests <= run.worlds[j].schedule.requests
    decreases j
  {
    if i < j {
      RequestsStay(setting, processes, run, i, j - 1);
      assert StepTaken(setting, run, j - 1);
    }
  }

  lemma DisturbedIsNotSpaced(setting: Setting, processes: nat, run: Run, i: nat)
    requires IsRun(setting, processes, run) && i < |run.steps|
    requires Brisk(setting, run.worlds[i], run.steps[i]) && !Undisturbed(run.worlds[i], run.steps[i])
    ensures !Spaced(run.worlds[i + 1].schedule.requests, setting.skew)
  {
    TrueAlways(setting, processes, run, i);
    assert StepTaken(setting, run, i);
    var w, step := run.worlds[i], run.steps[i];
    var f := w.flights[step.id];
    assert FlightTrue(setting, w, f) && RowTrue(w.schedule.requests, f, f.rows[0]);
    var j :| f.seen <= j < |w.schedule.requests| && w.schedule.requests[j].app == f.rows[0].id;
    var now := run.worlds[i + 1].schedule.requests;
    assert now[j] == w.schedule.requests[j] && !ApartBy(now, j, |now| - 1, setting.skew);
  }

  /**
  Over any run of any number of sweeps, each request made within its cadence of the
  reading, requests are a cadence apart exactly when none was made where another had been
  since its sweep's reading.
  */
  lemma SpacedIffUndisturbed(setting: Setting, processes: nat, run: Run)
    requires IsRun(setting, processes, run) && AllBrisk(setting, run)
    ensures Spaced(Last(run).schedule.requests, setting.skew) <==> AllUndisturbed(run, |run.steps|)
  {
    if AllUndisturbed(run, |run.steps|) {
      UndisturbedIsSpaced(setting, processes, run, |run.steps|);
    } else {
      var i :| 0 <= i < |run.steps| && !Undisturbed(run.worlds[i], run.steps[i]);
      assert Brisk(setting, run.worlds[i], run.steps[i]);
      DisturbedIsNotSpaced(setting, processes, run, i);
      RequestsStay(setting, processes, run, i + 1, |run.steps|);
      var now, end := run.worlds[i + 1].schedule.requests, Last(run).schedule.requests;
      var j, k :| 0 <= j < k < |now| && now[j].app == now[k].app && !ApartBy(now, j, k, setting.skew);
      assert end[j] == now[j] && end[k] == now[k] && !ApartBy(end, j, k, setting.skew);
    }
  }

  // ----- what the index is for ----------------------------------------------

  /** A live request of the application ended in this step, with this one of the log made already. */
  predicate EndsAfter(run: Run, m: nat, j: nat, app: AppId)
    requires m < |run.steps| && |run.worlds| == |run.steps| + 1
  {
    run.steps[m].End? && run.steps[m].app == app && j < |run.worlds[m].schedule.requests|
  }

  ghost predicate EndedBefore(run: Run, i: nat, j: nat, app: AppId)
    requires i <= |run.steps| && |run.worlds| == |run.steps| + 1
  {
    exists m | 0 <= m < i :: EndsAfter(run, m, j, app)
  }

  predicate HasLive(w: World, app: AppId) {
    app in w.schedule.apps && !w.schedule.apps[app].live.NoRequest?
  }

  /** Until a request of an application ends, the application has a live one. */
  lemma {:induction false} LiveUntilEnded(setting: Setting, processes: nat, run: Run, i: nat, j: nat)
    requires IsRun(setting, processes, run) && i < |run.worlds| && j < |run.worlds[i].schedule.requests|
    ensures var app := run.worlds[i].schedule.requests[j].app; HasLive(run.worlds[i], app) || EndedBefore(run, i, j, app)
    decreases i
  {
    if i > 0 {
      assert StepTaken(setting, run, i - 1);
      RequestsStay(setting, processes, run, i - 1, i);
      var before := run.worlds[i - 1].schedule.requests;
      if j < |before| {
        LiveUntilEnded(setting, processes, run, i - 1, j);
        var app := before[j].app;
        if EndedBefore(run, i - 1, j, app) {
          var m :| 0 <= m < i - 1 && EndsAfter(run, m, j, app);
          assert EndsAfter(run, m, j, app);
        } else if run.steps[i - 1].End? && run.steps[i - 1].app == app {
          assert EndsAfter(run, i - 1, j, app);
        }
      }
    }
  }

  /** A request that was made since the sweep read stopped being live before the sweep came to its application. */
  ghost predicate EndsMeanwhile(run: Run, i: nat)
    requires i < |run.steps| && |run.worlds| == |run.steps| + 1 && Makes(run.worlds[i], run.steps[i])
  {
    var f := run.worlds[i].flights[run.steps[i].id];
    exists j, m | f.seen <= j < |run.worlds[i].schedule.requests| && 0 <= m < i ::
      run.worlds[i].schedule.requests[j].app == f.rows[0].id && EndsAfter(run, m, j, f.rows[0].id)
  }

  ghost predicate NoneEndsMeanwhile(run: Run)
    requires |run.worlds| == |run.steps| + 1
  {
    forall i | 0 <= i < |run.steps| && Makes(run.worlds[i], run.steps[i]) :: !EndsMeanwhile(run, i)
  }

  /** Beside the index, the only way in between is for the other request to have come and gone. */
  lemma DisturbedIffEnded(setting: Setting, processes: nat, run: Run, i: nat)
    requires IsRun(setting, processes, run) && i < |run.steps| && Makes(run.worlds[i], run.steps[i])
    ensures Undisturbed(run.worlds[i], run.steps[i]) <==> !EndsMeanwhile(run, i)
  {
    var w := run.worlds[i];
    var f := w.flights[run.steps[i].id];
    if MadeSince(w, f, f.rows[0].id) {
      var j :| f.seen <= j < |w.schedule.requests| && w.schedule.requests[j].app == f.rows[0].id;
      LiveUntilEnded(setting, processes, run, i, j);
      var m :| 0 <= m < i && EndsAfter(run, m, j, f.rows[0].id);
    }
  }

  /**
  For any setting and any number of processes: requests are a cadence apart as long as no
  request made after a sweep's reading stops being live before that sweep comes to its
  application, and, where each is made within its cadence of the reading, only so long.
  */
  lemma SpacedIffNoneEndsMeanwhile(setting: Setting, processes: nat, run: Run)
    requires IsRun(setting, processes, run)
    ensures NoneEndsMeanwhile(run) ==> Spaced(Last(run).schedule.requests, setting.skew)
    ensures AllBrisk(setting, run) ==> (Spaced(Last(run).schedule.requests, setting.skew) <==> NoneEndsMeanwhile(run))
  {
    forall i | 0 <= i < |run.steps| && Makes(run.worlds[i], run.steps[i])
      ensures Undisturbed(run.worlds[i], run.steps[i]) <==> !EndsMeanwhile(run, i)
    {
      DisturbedIffEnded(setting, processes, run, i);
    }
    assert AllUndisturbed(run, |run.steps|) <==> NoneEndsMeanwhile(run);
    if NoneEndsMeanwhile(run) {
      UndisturbedIsSpaced(setting, processes, run, |run.steps|);
    } else if AllBrisk(setting, run) {
      SpacedIffUndisturbed(setting, processes, run);
    }
  }

  /** A scheduled request is live yet, or has lived as long as the setting says it does. */
  predicate LivedOut(setting: Setting, w: World) {
    forall j | 0 <= j < |w.schedule.requests| :: RequestLivedOut(setting, w, w.schedule.requests[j])
  }

  predicate RequestLivedOut(setting: Setting, w: World, r: Request) {
    r.at + setting.life <= w.clock || (r.app in w.schedule.apps && w.schedule.apps[r.app].live == Scheduled(r.at))
  }

  lemma StepKeepsLivedOut(setting: Setting, w: World, step: Step)
    requires LivedOut(setting, w) && Enabled(setting, w, step)
    ensures LivedOut(setting, Apply(setting, w, step))
  {
    var t := Apply(setting, w, step);
    forall j | 0 <= j < |t.schedule.requests| ensures RequestLivedOut(setting, t, t.schedule.requests[j]) {
      if j < |w.schedule.requests| {
        assert t.schedule.requests[j] == w.schedule.requests[j] && RequestLivedOut(setting, w, w.schedule.requests[j]);
      }
    }
  }

  lemma {:induction false} LivedOutAlways(setting: Setting, processes: nat, run: Run, i: nat)
    requires IsRun(setting, processes, run) && i < |run.worlds|
    ensures LivedOut(setting, run.worlds[i])
    decreases i
  {
    if i > 0 {
      LivedOutAlways(setting, processes, run, i - 1);
      assert StepTaken(setting, run, i - 1);
      StepKeepsLivedOut(setting, run.worlds[i - 1], run.steps[i - 1]);
    }
  }

  /** Where a sweep takes less time than a request lives, the index alone keeps the cadence, for any number of processes. */
  lemma OutlivedIsSpaced(setting: Setting, processes: nat, run: Run, i: nat)
    requires IsRun(setting, processes, run) && i < |run.worlds| && setting.lag < setting.life
    ensures Spaced(run.worlds[i].schedule.requests, setting.skew)
  {
    forall k | 0 <= k < i ensures Undisturbed(run.worlds[k], run.steps[k]) {
      TrueAlways(setting, processes, run, k);
      LivedOutAlways(setting, processes, run, k);
      assert StepTaken(setting, run, k);
      OutlivedStep(setting, run.worlds[k], run.steps[k]);
    }
    UndisturbedIsSpaced(setting, processes, run, i);
  }

  lemma OutlivedStep(setting: Setting, w: World, step: Step)
    requires WorldTrue(setting, w) && LivedOut(setting, w) && Enabled(setting, w, step) && setting.lag < setting.life
    ensures Undisturbed(w, step)
  {
    if Makes(w, step) {
      var f := w.flights[step.id];
      assert FlightTrue(setting, w, f);
      forall j | f.seen <= j < |w.schedule.requests| ensures w.schedule.requests[j].app != f.rows[0].id {
        assert RequestLivedOut(setting, w, w.schedule.requests[j]);
      }
    }
  }

  /** Two requests for one application are at least a request's life apart, whoever makes them. */
  predicate LifeApart(requests: seq<Request>, j: nat, k: nat, life: nat)
    requires j < k < |requests|
  {
    requests[k].at - requests[j].at >= life
  }

  lemma {:induction false} RequestsAreLivesApart(setting: Setting, processes: nat, run: Run, i: nat)
    requires IsRun(setting, processes, run) && i < |run.worlds|
    ensures var requests := run.worlds[i].schedule.requests;
      forall j, k | 0 <= j < k < |requests| && requests[j].app == requests[k].app :: LifeApart(requests, j, k, setting.life)
    decreases i
  {
    if i > 0 {
      RequestsAreLivesApart(setting, processes, run, i - 1);
      LivedOutAlways(setting, processes, run, i - 1);
      assert StepTaken(setting, run, i - 1);
      var w, requests := run.worlds[i - 1], run.worlds[i].schedule.requests;
      forall j, k | 0 <= j < k < |requests| && requests[j].app == requests[k].app ensures LifeApart(requests, j, k, setting.life) {
        assert requests[j] == w.schedule.requests[j];
        if k < |w.schedule.requests| {
          assert LifeApart(w.schedule.requests, j, k, setting.life);
        } else {
          assert RequestLivedOut(setting, w, w.schedule.requests[j]);
        }
      }
    }
  }

  // ----- what the guard is for ----------------------------------------------

  /** The guard of a process is busy exactly while a sweep of the process is in flight, and then there is one. */
  predicate GuardsHold(w: World) {
    && (forall id | id in w.flights ::
          w.flights[id].process < |w.guards| && !SweepGuard.IsFree(w.guards[w.flights[id].process], SWEEP))
    && forall id, other | id in w.flights && other in w.flights && w.flights[id].process == w.flights[other].process ::
         id == other
  }

  /** A step that starts and ends no sweep. */
  lemma SameFlightsKeepGuards(w: World, t: World)
    requires GuardsHold(w) && t.guards == w.guards && t.flights.Keys == w.flights.Keys
    requires forall id | id in t.flights :: t.flights[id].process == w.flights[id].process
    ensures GuardsHold(t)
  {
  }

  lemma TickKeepsGuards(setting: Setting, w: World, step: Step)
    requires setting.guarded && GuardsHold(w) && Enabled(setting, w, step) && step.Tick?
    ensures GuardsHold(Apply(setting, w, step)) && |Apply(setting, w, step).guards| == |w.guards|
  {
  }

  lemma SettleKeepsGuards(setting: Setting, w: World, step: Step)
    requires setting.guarded && GuardsHold(w) && Enabled(setting, w, step) && step.Settle?
    ensures GuardsHold(Apply(setting, w, step)) && |Apply(setting, w, step).guards| == |w.guards|
  {
  }

  lemma DieKeepsGuards(setting: Setting, w: World, at: Instant, process: nat)
    requires setting.guarded && GuardsHold(w) && Enabled(setting, w, Die(at, process))
    ensures GuardsHold(Apply(setting, w, Die(at, process)))
  {
    var t := Apply(setting, w, Die(at, process));
    assert forall id | id in t.flights :: id in w.flights && t.flights[id] == w.flights[id] && t.flights[id].process != process;
  }

  lemma StepKeepsGuards(setting: Setting, w: World, step: Step)
    requires setting.guarded && GuardsHold(w) && Enabled(setting, w, step)
    ensures GuardsHold(Apply(setting, w, step)) && |Apply(setting, w, step).guards| == |w.guards|
  {
    match step {
      case Tick(_, _, _, _) => TickKeepsGuards(setting, w, step);
      case Settle(_, _) => SettleKeepsGuards(setting, w, step);
      case Die(at, process) => DieKeepsGuards(setting, w, at, process);
      case _ => SameFlightsKeepGuards(w, Apply(setting, w, step));
    }
  }

  /** Nothing that any sweep in flight has still to queue was asked for since it read. */
  predicate AllUntouched(w: World) {
    forall id, k, j | id in w.flights && 0 <= k < |w.flights[id].rows| && w.flights[id].seen <= j < |w.schedule.requests| ::
      w.schedule.requests[j].app != w.flights[id].rows[k].id
  }

  lemma AloneStaysUntouched(setting: Setting, w: World, step: Step)
    requires setting.guarded && |w.guards| <= 1 && GuardsHold(w) && WorldTrue(setting, w) && AllUntouched(w)
    requires Enabled(setting, w, step)
    ensures Undisturbed(w, step) && AllUntouched(Apply(setting, w, step))
  {
    match step {
      case Queue(at, id, commits) => AloneQueues(setting, w, at, id, commits);
      case Read(_, _, _) =>
      case _ => assert Apply(setting, w, step).schedule.requests == w.schedule.requests;
    }
  }

  lemma AloneQueues(setting: Setting, w: World, at: Instant, id: FlightId, commits: bool)
    requires |w.guards| <= 1 && GuardsHold(w) && WorldTrue(setting, w) && AllUntouched(w)
    requires Enabled(setting, w, Queue(at, id, commits))
    ensures Undisturbed(w, Queue(at, id, commits)) && AllUntouched(Apply(setting, w, Queue(at, id, commits)))
  {
    var f, t := w.flights[id], Apply(setting, w, Queue(at, id, commits));
    assert FlightTrue(setting, w, f);
    assert forall j | f.seen <= j < |w.schedule.requests| :: w.schedule.requests[j].app != f.rows[0].id;
    forall other, k, j | other in t.flights && 0 <= k < |t.flights[other].rows| && t.flights[other].seen <= j < |t.schedule.requests|
      ensures t.schedule.requests[j].app != t.flights[other].rows[k].id
    {
      assert w.flights[other].process == f.process && other == id;
      assert t.flights[other].rows[k] == f.rows[k + 1];
    }
  }

  lemma {:induction false} AloneAlways(setting: Setting, processes: nat, run: Run, i: nat)
    requires IsRun(setting, processes, run) && i < |run.worlds| && setting.guarded && processes <= 1
    ensures GuardsHold(run.worlds[i]) && |run.worlds[i].guards| == processes && AllUntouched(run.worlds[i])
    decreases i
  {
    if i > 0 {
      AloneAlways(setting, processes, run, i - 1);
      TrueAlways(setting, processes, run, i - 1);
      assert StepTaken(setting, run, i - 1);
      StepKeepsGuards(setting, run.worlds[i - 1], run.steps[i - 1]);
      AloneStaysUntouched(setting, run.worlds[i - 1], run.steps[i - 1]);
    }
  }

  /**
  One process behind its guard: over any run, however plans change, assessments come and
  go, sweeps throw and the process dies and is started again, requests for one application
  are at least the plan's cadence apart, less only what the process's clock runs ahead.
  */
  lemma CadenceIsAFloor(setting: Setting, processes: nat, run: Run, i: nat)
    requires IsRun(setting, processes, run) && i < |run.worlds| && setting.guarded && processes <= 1
    ensures Spaced(run.worlds[i].schedule.requests, setting.skew)
  {
    forall k | 0 <= k < i ensures Undisturbed(run.worlds[k], run.steps[k]) {
      AloneAlways(setting, processes, run, k);
      TrueAlways(setting, processes, run, k);
      assert StepTaken(setting, run, k);
      AloneStaysUntouched(setting, run.worlds[k], run.steps[k]);
    }
    UndisturbedIsSpaced(setting, processes, run, i);
  }

  ghost predicate AlwaysSpaced(setting: Setting, processes: nat) {
    forall run: Run, i: nat :: IsRun(setting, processes, run) && i < |run.worlds|
      ==> Spaced(run.worlds[i].schedule.requests, setting.skew)
  }

  /** The longest cadence there is. */
  const LONGEST: nat := 30

  /** What a caller can know beforehand: the processes, the guard, and the three times. */
  predicate KeepsTheCadence(setting: Setting, processes: nat) {
    || processes == 0
    || (setting.guarded && processes == 1)
    || setting.lag < setting.life
    || setting.life + setting.skew >= LONGEST * DAY
  }

  /**
  The cadence rests on the guard, and one process to hold it; or else on the index, which
  holds as long as a request lives longer than a sweep takes. With neither, some run asks
  for one application twice, a request's life apart; only where that comes to a whole
  cadence, but for the skew, would it be no breach.
  */
  lemma AlwaysSpacedIff(setting: Setting, processes: nat)
    ensures AlwaysSpaced(setting, processes) <==> KeepsTheCadence(setting, processes)
  {
    if KeepsTheCadence(setting, processes) {
      forall run: Run, i: nat | IsRun(setting, processes, run) && i < |run.worlds|
        ensures Spaced(run.worlds[i].schedule.requests, setting.skew)
      {
        KeptIsSpaced(setting, processes, run, i);
      }
    } else {
      var run := AskedTwice(setting, processes);
      var requests := Last(run).schedule.requests;
      assert !ApartBy(requests, 0, 1, setting.skew);
    }
  }

  lemma KeptIsSpaced(setting: Setting, processes: nat, run: Run, i: nat)
    requires KeepsTheCadence(setting, processes) && IsRun(setting, processes, run) && i < |run.worlds|
    ensures Spaced(run.worlds[i].schedule.requests, setting.skew)
  {
    if processes == 0 {
      NoProcessNoRequest(setting, run, i);
    } else if setting.guarded && processes == 1 {
      CadenceIsAFloor(setting, processes, run, i);
    } else if setting.lag < setting.life {
      OutlivedIsSpaced(setting, processes, run, i);
    } else {
      TrueAlways(setting, processes, run, i);
      RequestsAreLivesApart(setting, processes, run, i);
      var requests := run.worlds[i].schedule.requests;
      forall j, k | 0 <= j < k < |requests| && requests[j].app == requests[k].app ensures ApartBy(requests, j, k, setting.skew) {
        assert LifeApart(requests, j, k, setting.life) && ReassessEveryDays(requests[k].plan).value <= LONGEST;
      }
    }
  }

  lemma {:induction false} NoProcessNoRequest(setting: Setting, run: Run, i: nat)
    requires IsRun(setting, 0, run) && i < |run.worlds|
    ensures run.worlds[i].guards == [] && run.worlds[i].flights == map[] && run.worlds[i].schedule.requests == []
    decreases i
  {
    if i > 0 {
      NoProcessNoRequest(setting, run, i - 1);
      assert StepTaken(setting, run, i - 1);
    }
  }

  // ----- one application asked for twice ------------------------------------

  function Last(run: Run): World
    requires |run.worlds| > 0
  {
    run.worlds[|run.worlds| - 1]
  }

  function Then(setting: Setting, processes: nat, run: Run, step: Step): (r: Run)
    requires IsRun(setting, processes, run) && Enabled(setting, Last(run), step)
    ensures IsRun(setting, processes, r) && Last(r) == Apply(setting, Last(run), step)
  {
    var r := Run(run.worlds + [Apply(setting, Last(run), step)], run.steps + [step]);
    assert IsRun(setting, processes, r) by {
      forall i | 0 <= i < |r.steps| ensures StepTaken(setting, r, i) {
        if i < |run.steps| { assert StepTaken(setting, run, i); }
      }
    }
    r
  }

  const ASSESSED: Instant := EPOCH + 1
  const DUE: Instant := ASSESSED + LONGEST * DAY
  const ROW: DueApp := DueApp(0, Certified, ASSESSED)

  predicate TwoMayStart(setting: Setting, processes: nat) {
    if setting.guarded then processes >= 2 else processes >= 1
  }

  function Asked(requests: seq<Request>, stamp: Option<Instant>, live: Live): Schedule {
    Schedule(map[0 := App(Certified, stamp, Some(ASSESSED), true, live)], requests)
  }

  predicate HasRead(w: World, id: FlightId) {
    id in w.flights && w.flights[id].rows == [ROW] && w.flights[id].asked == DUE && w.flights[id].readAt == DUE
  }

  /** Two sweeps under way, of two processes if there is a guard between them. */
  lemma TwoUnderWay(setting: Setting, processes: nat) returns (run: Run)
    requires TwoMayStart(setting, processes)
    ensures IsRun(setting, processes, run)
    ensures
      var w := Last(run);
      && w.clock == DUE && w.schedule == Asked([], None, NoRequest)
      && (forall id | 0 <= id < 2 :: id in w.flights && w.flights[id].asked == DUE && !w.flights[id].read)
  {
    run := Run([Start(processes)], []);
    run := Then(setting, processes, run, Change(DUE, 0, Certified, Some(ASSESSED), true));
    run := Then(setting, processes, run, Tick(DUE, 0, 0, DUE));
    run := Then(setting, processes, run, Tick(DUE, if setting.guarded then 1 else 0, 1, DUE));
  }

  /** Both read before either writes. */
  lemma BothRead(setting: Setting, processes: nat) returns (run: Run)
    requires TwoMayStart(setting, processes)
    ensures IsRun(setting, processes, run)
    ensures var w := Last(run); w.clock == DUE && w.schedule == Asked([], None, NoRequest) && HasRead(w, 0) && HasRead(w, 1)
  {
    run := TwoUnderWay(setting, processes);
    run := Then(setting, processes, run, Read(DUE, 0, [ROW]));
    run := Then(setting, processes, run, Read(DUE, 1, [ROW]));
  }

  /** The first one's request is over by the time the second comes to the application. */
  lemma AskedTwice(setting: Setting, processes: nat) returns (run: Run)
    requires TwoMayStart(setting, processes) && setting.life <= setting.lag
    ensures IsRun(setting, processes, run)
    ensures Last(run).schedule.requests == [Request(0, DUE, Certified), Request(0, DUE + setting.life, Certified)]
  {
    var over := DUE + setting.life;
    run := BothRead(setting, processes);
    run := Then(setting, processes, run, Queue(DUE, 0, true));
    assert Last(run).schedule == Asked([Request(0, DUE, Certified)], Some(DUE), Scheduled(DUE));
    run := Then(setting, processes, run, End(over, 0));
    assert Last(run).schedule == Asked([Request(0, DUE, Certified)], Some(DUE), NoRequest) && HasRead(Last(run), 1);
    run := Then(setting, processes, run, Queue(over, 1, true));
  }
}
