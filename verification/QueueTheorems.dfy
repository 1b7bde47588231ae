/** What every run of the queue protocol keeps. */
module QueueTheorems {
  import opened Options
  import opened RequestQueue
  import opened QueueProtocol

  lemma {:induction false} InvHolds(lags: Setting, run: Run, i: nat)
    requires Fits(lags) && IsRun(lags, run) && i < |run.states|
    ensures Inv(lags, run.states[i])
  {
    if i > 0 {
      InvHolds(lags, run, i - 1);
      assert StepTaken(lags, run, i - 1);
      InvStep(lags, run.states[i - 1], run.steps[i - 1]);
    }
  }

  // ----- one owner ----------------------------------------------------------

  /** No request has two workers waiting on it. */
  predicate OneOwnerEach(s: State) {
    forall v, w | v in s.workers && w in s.workers && v != w ::
      s.workers[v].phase.Waiting() && s.workers[w].phase.Waiting() ==> s.workers[v].phase.id != s.workers[w].phase.id
  }

  ghost predicate AlwaysOneOwner(lags: Setting) {
    forall run: Run, i: nat :: IsRun(lags, run) && i < |run.states| ==> OneOwnerEach(run.states[i])
  }

  /**
  The gap between the two timeouts is the whole safety argument: over every
  interleaving a request has at most one waiting worker, exactly when the worker's
  own bookkeeping fits inside that gap, and whether or not replies are lost.
  */
  lemma OneOwnerIffBookkeepingFits(lags: Setting)
    ensures AlwaysOneOwner(lags) <==> lags.start + lags.finish <= 30 * 60_000
  {
    if Fits(lags) {
      forall run: Run, i: nat | IsRun(lags, run) && i < |run.states|
        ensures OneOwnerEach(run.states[i])
      {
        InvHolds(lags, run, i);
      }
    } else {
      var run := TwoOwners(lags);
      var i := |run.states| - 1;
      assert !OneOwnerEach(run.states[i]);
    }
  }

  /** Neither reclaim statement touches a request whose worker is still waiting. */
  lemma ReclaimSparesWaiters(lags: Setting, run: Run, i: nat, w: WorkerId)
    requires Fits(lags) && IsRun(lags, run) && i < |run.steps|
    requires run.steps[i].RequeueSweep? || run.steps[i].AbandonSweep?
    requires w in run.states[i].workers && run.states[i].workers[w].phase.Waiting()
    ensures var id := run.states[i].workers[w].phase.id;
            && (id in run.states[i].rows <==> id in run.states[i + 1].rows)
            && (id in run.states[i].rows ==> run.states[i + 1].rows[id] == run.states[i].rows[id])
  {
    InvHolds(lags, run, i);
    assert StepTaken(lags, run, i);
    HeldRowIsUntouched(lags, run.states[i], run.steps[i], w);
  }

  /**
  Completion and failure match on the id alone, and still only ever land on the
  worker's own claim: the row is claimed, by the claim this worker made. The
  attempts a failure read earlier are the row's attempts when it writes, so its two
  statements decide as one would.
  */
  lemma SettlingLandsOnOwnClaim(lags: Setting, run: Run, i: nat, w: WorkerId)
    requires Sound(lags) && IsRun(lags, run) && i < |run.steps|
    requires w in run.states[i].workers
    requires (run.steps[i].Complete? && run.steps[i].w == w && run.states[i].workers[w].phase.Completing?)
          || (run.steps[i].WriteFailure? && run.steps[i].w == w && run.states[i].workers[w].phase.FailWriting?)
    requires run.states[i].workers[w].phase.id in run.states[i].rows
    ensures var p := run.states[i].workers[w].phase;
            var before := run.states[i].rows[p.id];
            var after := run.states[i + 1].rows;
            && before.status == Claimed && before.claimedAt == Some(p.claimedAt)
            && run.states[i].now <= p.claimedAt + RECLAIM_AFTER
            && p.id in after
            && (run.steps[i].Complete? ==> after[p.id].status == Completed)
            && (run.steps[i].WriteFailure? ==>
                  after[p.id].status == if p.retryable && before.attempts < MAX_ATTEMPTS then Queued else Failed)
  {
    InvHolds(lags, run, i);
    assert StepTaken(lags, run, i);
    assert WorkerFine(lags, run.states[i], run.states[i].workers[w].phase);
  }

  // ----- building a run one step at a time ----------------------------------

  function Last(run: Run): State
    requires |run.states| > 0
  {
    run.states[|run.states| - 1]
  }

  ghost function Then(lags: Setting, run: Run, step: Step, next: State): (r: Run)
    requires IsRun(lags, run) && Follows(lags, Last(run), step, next)
    ensures IsRun(lags, r) && Last(r) == next
    ensures |r.states| == |run.states| + 1 && r.states[|run.states| - 1] == Last(run)
  {
    var r := Run(run.states + [next], run.steps + [step]);
    assert forall i | 0 <= i < |r.steps| :: StepTaken(lags, r, i) by {
      forall i | 0 <= i < |r.steps| ensures StepTaken(lags, r, i) {
        if i < |run.steps| {
          assert StepTaken(lags, run, i);
        }
      }
    }
    r
  }

  function Pair(first: Phase, orphaned: bool, second: Phase): map<WorkerId, Worker> {
    map[1 := Worker(first, orphaned), 2 := Worker(second, false)]
  }

  function Table7(row: Row): Table {
    map[7 := row]
  }

  const CLAIM7: Row := ClaimedRow(NewRow(0), 0)

  lemma TwoIdle(lags: Setting) returns (run: Run)
    ensures IsRun(lags, run) && Last(run) == State(0, map[], Pair(Idle, false, Idle), {})
  {
    run := Run([State(0, map[], map[], {})], []);
    run := Then(lags, run, Boot(1), State(0, map[], map[1 := Worker(Idle, false)], {}));
    run := Then(lags, run, Boot(2), State(0, map[], Pair(Idle, false, Idle), {}));
  }

  /** One worker's request, claimed at time zero, with another worker idle beside it. */
  lemma OneClaimMade(lags: Setting) returns (run: Run)
    ensures IsRun(lags, run) && Last(run) == State(0, Table7(CLAIM7), Pair(Starting(7, 0), false, Idle), {7})
  {
    run := TwoIdle(lags);
    run := Then(lags, run, Submit(7), State(0, Table7(NewRow(0)), Pair(Idle, false, Idle), {7}));
    run := Then(lags, run, BeginClaim(1, 7), State(0, Table7(NewRow(0)), Pair(Claiming(7, 0), false, Idle), {7}));
    run := Then(lags, run, CommitClaim(1), State(0, Table7(CLAIM7), Pair(Starting(7, 0), false, Idle), {7}));
  }

  /** When the timer starts, in the run that goes wrong: late enough that the rest no longer fits. */
  function LateStart(lags: Setting): Instant {
    if lags.start <= RECLAIM_AFTER - RUN_TIMEOUT then lags.start else RECLAIM_AFTER - RUN_TIMEOUT + 1
  }

  lemma TimerStarted(lags: Setting) returns (run: Run)
    requires !Fits(lags)
    ensures IsRun(lags, run)
    ensures var a := LateStart(lags); Last(run) == State(a, Table7(CLAIM7), Pair(Running(7, 0, a), false, Idle), {7})
  {
    var a := LateStart(lags);
    run := OneClaimMade(lags);
    run := Then(lags, run, Tick(a), State(a, Table7(CLAIM7), Pair(Starting(7, 0), false, Idle), {7}));
    run := Then(lags, run, StartTimer(1), State(a, Table7(CLAIM7), Pair(Running(7, 0, a), false, Idle), {7}));
  }

  /** The same worker, its run timed out and its failure still unwritten when the claim turns stale. */
  lemma TimedOutLate(lags: Setting) returns (run: Run, since: Instant)
    requires !Fits(lags)
    ensures IsRun(lags, run)
    ensures Last(run) == State(RECLAIM_AFTER + 1, Table7(CLAIM7), Pair(Failing(7, 0, since, true), true, Idle), {7})
  {
    var a := LateStart(lags);
    since := a + RUN_TIMEOUT;
    run := TimerStarted(lags);
    run := Then(lags, run, Tick(since), State(since, Table7(CLAIM7), Pair(Running(7, 0, a), false, Idle), {7}));
    run := Then(lags, run, TimerFires(1),
                State(since, Table7(CLAIM7), Pair(Failing(7, 0, since, true), true, Idle), {7}));
    run := Then(lags, run, Tick(RECLAIM_AFTER + 1),
                State(RECLAIM_AFTER + 1, Table7(CLAIM7), Pair(Failing(7, 0, since, true), true, Idle), {7}));
  }

  const SECOND7: Row := ClaimedRow(RequeuedRow(CLAIM7), RECLAIM_AFTER + 1)

  /** When the bookkeeping can outlast the gap, the sweep hands a live claim to a second worker. */
  lemma ClaimedTwice(lags: Setting) returns (run: Run, since: Instant)
    requires !Fits(lags)
    ensures IsRun(lags, run)
    ensures Last(run) == State(RECLAIM_AFTER + 1, Table7(SECOND7),
      Pair(Failing(7, 0, since, true), true, Starting(7, RECLAIM_AFTER + 1)), {7})
  {
    var late := RECLAIM_AFTER + 1;
    run, since := TimedOutLate(lags);
    var p := Failing(7, 0, since, true);
    var back := RequeuedRow(CLAIM7);
    run := Then(lags, run, RequeueSweep, State(late, Table7(back), Pair(p, true, Idle), {7}));
    run := Then(lags, run, BeginClaim(2, 7), State(late, Table7(back), Pair(p, true, Claiming(7, late)), {7}));
    run := Then(lags, run, CommitClaim(2), State(late, Table7(SECOND7), Pair(p, true, Starting(7, late)), {7}));
  }

  lemma TwoOwners(lags: Setting) returns (run: Run)
    requires !Fits(lags)
    ensures IsRun(lags, run) && !OneOwnerEach(Last(run))
  {
    var since;
    run, since := ClaimedTwice(lags);
    assert Last(run).workers[1].phase.Waiting() && Last(run).workers[2].phase.Waiting();
  }

  // ----- terminal rows ------------------------------------------------------

  /** From state i on, a row in a terminal status is exactly as it was, for as long as it exists. */
  predicate StaysSettled(run: Run, i: nat, j: nat)
    requires i <= j < |run.states|
  {
    forall id | id in run.states[i].rows && Terminal(run.states[i].rows[id].status) && id in run.states[j].rows ::
      run.states[j].rows[id] == run.states[i].rows[id]
  }

  ghost predicate SettledIsSettled(lags: Setting) {
    forall run: Run, i: nat, j: nat :: IsRun(lags, run) && i <= j < |run.states| ==> StaysSettled(run, i, j)
  }

  /**
  Completed, failed, cancelled and refused are absorbing although neither update
  looks at the status, exactly when the bookkeeping fits and a statement reported as
  failed had no effect.
  */
  lemma SettledIffFitsAndHeard(lags: Setting)
    ensures SettledIsSettled(lags) <==> lags.start + lags.finish <= 30 * 60_000 && !lags.lostReplies
  {
    if lags.lostReplies {
      var run, i := FinishedRunReopened(lags);
      assert !StaysSettled(run, i, |run.states| - 1);
    } else if !Fits(lags) {
      var run, i := LateFailureReopens(lags);
      assert !StaysSettled(run, i, |run.states| - 1);
    } else {
      forall run: Run, i: nat, j: nat | IsRun(lags, run) && i <= j < |run.states|
        ensures StaysSettled(run, i, j)
      {
        SettledRows(lags, run, i, j);
      }
    }
  }

  const DONEAGAIN7: Row := CompletedRow(SECOND7, 9, RECLAIM_AFTER + 1)

  /** The second worker completes the request, with the first one's failure still to be written. */
  lemma SecondCompletes(lags: Setting) returns (run: Run, since: Instant)
    requires !Fits(lags)
    ensures IsRun(lags, run)
    ensures Last(run) == State(RECLAIM_AFTER + 1, Table7(DONEAGAIN7), Pair(Failing(7, 0, since, true), true, Idle), {7})
  {
    var late := RECLAIM_AFTER + 1;
    run, since := ClaimedTwice(lags);
    var p := Failing(7, 0, since, true);
    run := Then(lags, run, StartTimer(2), State(late, Table7(SECOND7), Pair(p, true, Running(7, late, late)), {7}));
    run := Then(lags, run, RunSucceeds(2), State(late, Table7(SECOND7), Pair(p, true, Completing(7, late, late)), {7}));
    run := Then(lags, run, Complete(2, 9), State(late, Table7(DONEAGAIN7), Pair(p, true, Idle), {7}));
  }

  lemma LateFailureReopens(lags: Setting) returns (run: Run, i: nat)
    requires !Fits(lags)
    ensures IsRun(lags, run) && i < |run.states| && !StaysSettled(run, i, |run.states| - 1)
  {
    var late := RECLAIM_AFTER + 1;
    var since;
    run, since := SecondCompletes(lags);
    run := Then(lags, run, ReadAttempts(1),
                State(late, Table7(DONEAGAIN7), Pair(FailWriting(7, 0, since, true, 2), true, Idle), {7}));
    i := |run.states| - 1;
    run := Then(lags, run, WriteFailure(1, ""),
                State(late, Table7(FailedRow(DONEAGAIN7, true, "", late)), Pair(Stopped, true, Idle), {7}));
    assert run.states[i].rows[7] == DONEAGAIN7 && Last(run).rows[7].status == Queued;
  }

  lemma {:induction false} GoneIsGone(lags: Setting, run: Run, i: nat, j: nat, id: RequestId)
    requires Sound(lags) && IsRun(lags, run) && i <= j < |run.states|
    requires id in run.states[i].issued && id in run.states[j].rows
    ensures id in run.states[i].rows && id in run.states[j].issued
  {
    InvHolds(lags, run, j);
    if i < j {
      IssuedGrows(lags, run, i, j - 1);
      InvHolds(lags, run, j - 1);
      assert StepTaken(lags, run, j - 1);
      RowStep(lags, run.states[j - 1], run.steps[j - 1], id);
      GoneIsGone(lags, run, i, j - 1, id);
    }
  }

  lemma {:induction false} IssuedGrows(lags: Setting, run: Run, i: nat, j: nat)
    requires IsRun(lags, run) && i <= j < |run.states|
    ensures run.states[i].issued <= run.states[j].issued
  {
    if i < j {
      IssuedGrows(lags, run, i, j - 1);
      assert StepTaken(lags, run, j - 1);
    }
  }

  lemma {:induction false} SettledRows(lags: Setting, run: Run, i: nat, j: nat)
    requires Sound(lags) && IsRun(lags, run) && i <= j < |run.states|
    ensures StaysSettled(run, i, j)
  {
    if i < j {
      SettledRows(lags, run, i, j - 1);
      forall id | id in run.states[i].rows && Terminal(run.states[i].rows[id].status) && id in run.states[j].rows
        ensures run.states[j].rows[id] == run.states[i].rows[id]
      {
        InvHolds(lags, run, i);
        GoneIsGone(lags, run, i, j, id);
        InvHolds(lags, run, j - 1);
        assert StepTaken(lags, run, j - 1);
        IssuedGrows(lags, run, i, j - 1);
        RowStep(lags, run.states[j - 1], run.steps[j - 1], id);
      }
    }
  }

  const DONE7: Row := CompletedRow(CLAIM7, 9, 0)

  /** The run finished and its completion committed, and the worker was told otherwise. */
  lemma UnheardCompletion(lags: Setting) returns (run: Run)
    requires lags.lostReplies
    ensures IsRun(lags, run)
    ensures Last(run) == State(0, Table7(DONE7), Pair(Failing(7, 0, 0, true), false, Idle), {7})
  {
    run := OneClaimMade(lags);
    run := Then(lags, run, StartTimer(1), State(0, Table7(CLAIM7), Pair(Running(7, 0, 0), false, Idle), {7}));
    run := Then(lags, run, RunSucceeds(1), State(0, Table7(CLAIM7), Pair(Completing(7, 0, 0), false, Idle), {7}));
    run := Then(lags, run, CompleteUnheard(1, 9, true),
                State(0, Table7(DONE7), Pair(Failing(7, 0, 0, true), false, Idle), {7}));
  }

  /** A finished assessment goes back to the queue when its completion was reported as an error. */
  lemma FinishedRunReopened(lags: Setting) returns (run: Run, i: nat)
    requires lags.lostReplies
    ensures IsRun(lags, run) && i < |run.states| && !StaysSettled(run, i, |run.states| - 1)
  {
    var reopened := FailedRow(DONE7, true, "", 0);
    run := UnheardCompletion(lags);
    run := Then(lags, run, ReadAttempts(1),
                State(0, Table7(DONE7), Pair(FailWriting(7, 0, 0, true, 1), false, Idle), {7}));
    i := |run.states| - 1;
    run := Then(lags, run, WriteFailure(1, ""), State(0, Table7(reopened), Pair(Idle, false, Idle), {7}));
    assert run.states[i].rows[7] == DONE7 && Last(run).rows[7].status == Queued;
  }

  // ----- termination --------------------------------------------------------

  /** How many more times a request can change hands. */
  function Rank(row: Row): nat {
    if row.attempts > MAX_ATTEMPTS then 0
    else match row.status
      case Queued => 2 * (MAX_ATTEMPTS - row.attempts)
      case Claimed => 2 * (MAX_ATTEMPTS - row.attempts) + 1
      case _ => 0
  }

  /** Every step leaves a row alone, removes it, creates it, or lowers its rank. */
  lemma RowStep(lags: Setting, s: State, step: Step, id: RequestId)
    requires Sound(lags) && Inv(lags, s) && Enabled(lags, s, step)
    ensures var t := Apply(lags, s, step);
            && (id in s.rows && id in t.rows && t.rows[id] != s.rows[id] ==>
                  Rank(t.rows[id]) < Rank(s.rows[id]) && !Terminal(s.rows[id].status))
            && (id !in s.rows && id in t.rows ==> step == Submit(id) && t.rows[id] == NewRow(s.now))
  {
    if id in s.rows {
      assert RowFine(s.rows[id], s.now);
    }
    if Actor(step).Some? && Actor(step).value in s.workers {
      assert WorkerFine(lags, s, s.workers[Actor(step).value].phase);
    }
  }

  /** How many of the first k steps changed a row that stayed in the table. */
  ghost function Changes(run: Run, id: RequestId, k: nat): nat
    requires k < |run.states|
  {
    if k == 0 then 0
    else
      var s, t := run.states[k - 1], run.states[k];
      Changes(run, id, k - 1) + if id in s.rows && id in t.rows && s.rows[id] != t.rows[id] then 1 else 0
  }

  /** Whatever the workers, the timers and the sweeps do, one request changes at most six times. */
  lemma {:induction false} AtMostSixChanges(lags: Setting, run: Run, id: RequestId, k: nat)
    requires Sound(lags) && IsRun(lags, run) && k < |run.states|
    ensures Changes(run, id, k) <= 6
    ensures id in run.states[k].rows ==> Changes(run, id, k) + Rank(run.states[k].rows[id]) <= 6
    ensures id !in run.states[k].issued ==> Changes(run, id, k) == 0
  {
    if k > 0 {
      AtMostSixChanges(lags, run, id, k - 1);
      InvHolds(lags, run, k - 1);
      assert StepTaken(lags, run, k - 1);
      IssuedGrows(lags, run, k - 1, k);
      RowStep(lags, run.states[k - 1], run.steps[k - 1], id);
    }
  }

  /** A claim that commits, whether or not the worker hears of it. */
  predicate Claims(s: State, step: Step, id: RequestId) {
    (step.CommitClaim? || step.ClaimUnheard?)
    && step.w in s.workers && s.workers[step.w].phase.Claiming? && s.workers[step.w].phase.id == id
  }

  ghost function ClaimCount(run: Run, id: RequestId, k: nat): nat
    requires k < |run.states| && |run.states| == |run.steps| + 1
  {
    if k == 0 then 0
    else ClaimCount(run, id, k - 1) + if Claims(run.states[k - 1], run.steps[k - 1], id) then 1 else 0
  }

  /** Over any run at all, a row's own counter says how often it was claimed. */
  lemma {:induction false} AttemptsAreClaims(lags: Setting, run: Run, id: RequestId, k: nat)
    requires IsRun(lags, run) && k < |run.states|
    ensures id in run.states[k].rows ==> id in run.states[k].issued && ClaimCount(run, id, k) == run.states[k].rows[id].attempts
    ensures id !in run.states[k].issued ==> ClaimCount(run, id, k) == 0
  {
    if k > 0 {
      AttemptsAreClaims(lags, run, id, k - 1);
      assert StepTaken(lags, run, k - 1);
      IssuedGrows(lags, run, k - 1, k);
      AttemptsCountClaims(lags, run.states[k - 1], run.steps[k - 1], id);
    }
  }

  lemma AttemptsCountClaims(lags: Setting, s: State, step: Step, id: RequestId)
    requires Enabled(lags, s, step) && (id in s.rows ==> id in s.issued)
    ensures var t := Apply(lags, s, step);
            && (Claims(s, step, id) ==> id in s.rows && id in t.rows)
            && (id in s.rows && id in t.rows ==>
                  t.rows[id].attempts == s.rows[id].attempts + if Claims(s, step, id) then 1 else 0)
            && (id !in s.rows && id in t.rows ==> t.rows[id].attempts == 0 && id !in s.issued && id in t.issued)
  {
  }

  /** While the bookkeeping fits, no request is claimed more than three times, and a queued one has been fewer. */
  lemma {:induction false} AtMostThreeClaims(lags: Setting, run: Run, id: RequestId, k: nat)
    requires Fits(lags) && IsRun(lags, run) && k < |run.states|
    ensures ClaimCount(run, id, k) <= 3
    ensures id in run.states[k].rows && run.states[k].rows[id].status == Queued ==> ClaimCount(run, id, k) < 3
  {
    AttemptsAreClaims(lags, run, id, k);
    InvHolds(lags, run, k);
    if id in run.states[k].rows {
      assert RowFine(run.states[k].rows[id], run.states[k].now);
    } else if k > 0 {
      AtMostThreeClaims(lags, run, id, k - 1);
      AttemptsAreClaims(lags, run, id, k - 1);
      assert StepTaken(lags, run, k - 1);
      AttemptsCountClaims(lags, run.states[k - 1], run.steps[k - 1], id);
    }
  }

  ghost predicate NeverAFourthClaim(lags: Setting) {
    forall run: Run, id: RequestId, k: nat :: IsRun(lags, run) && k < |run.states| ==> ClaimCount(run, id, k) <= 3
  }

  /** The attempt cap is a cap exactly when the bookkeeping fits: a failure that reads the count too early can undo it. */
  lemma ThreeClaimsIffBookkeepingFits(lags: Setting)
    ensures NeverAFourthClaim(lags) <==> lags.start + lags.finish <= 30 * 60_000
  {
    if Fits(lags) {
      forall run: Run, id: RequestId, k: nat | IsRun(lags, run) && k < |run.states|
        ensures ClaimCount(run, id, k) <= 3
      {
        AtMostThreeClaims(lags, run, id, k);
      }
    } else {
      var run := FourthClaim(lags);
      AttemptsAreClaims(lags, run, 7, |run.states| - 1);
      assert ClaimCount(run, 7, |run.states| - 1) == 4;
    }
  }

  const BACK7: Row := FailedRow(SECOND7, true, "", RECLAIM_AFTER + 1)
  const THIRD7: Row := ClaimedRow(BACK7, RECLAIM_AFTER + 1)
  const FREED7: Row := FailedRow(THIRD7, true, "", RECLAIM_AFTER + 1)

  /** The second worker's run fails. */
  lemma SecondRunFails(lags: Setting, before: Run, row: Row, first: Phase) returns (run: Run)
    requires IsRun(lags, before)
    requires Last(before) == State(RECLAIM_AFTER + 1, Table7(row), Pair(first, true, Starting(7, RECLAIM_AFTER + 1)), {7})
    ensures IsRun(lags, run)
    ensures Last(run) == State(RECLAIM_AFTER + 1, Table7(row),
      Pair(first, true, Failing(7, RECLAIM_AFTER + 1, RECLAIM_AFTER + 1, true)), {7})
  {
    var late := RECLAIM_AFTER + 1;
    run := Then(lags, before, StartTimer(2), State(late, Table7(row), Pair(first, true, Running(7, late, late)), {7}));
    run := Then(lags, run, RunFails(2, true), State(late, Table7(row), Pair(first, true, Failing(7, late, late, true)), {7}));
  }

  /** The second worker, idle again, takes the queued request. */
  lemma SecondClaims(lags: Setting, before: Run, row: Row, first: Phase) returns (run: Run)
    requires IsRun(lags, before) && row.status == Queued && !first.Claiming?
    requires Last(before) == State(RECLAIM_AFTER + 1, Table7(row), Pair(first, true, Idle), {7})
    ensures IsRun(lags, run)
    ensures Last(run) == State(RECLAIM_AFTER + 1, Table7(ClaimedRow(row, RECLAIM_AFTER + 1)),
      Pair(first, true, Starting(7, RECLAIM_AFTER + 1)), {7})
  {
    var late := RECLAIM_AFTER + 1;
    run := Then(lags, before, BeginClaim(2, 7), State(late, Table7(row), Pair(first, true, Claiming(7, late)), {7}));
    run := Then(lags, run, CommitClaim(2),
                State(late, Table7(ClaimedRow(row, late)), Pair(first, true, Starting(7, late)), {7}));
  }

  /** The first worker reads two attempts; the second then fails, and claims for the third time. */
  lemma ClaimedThrice(lags: Setting) returns (run: Run, since: Instant)
    requires !Fits(lags)
    ensures IsRun(lags, run)
    ensures Last(run) == State(RECLAIM_AFTER + 1, Table7(THIRD7),
      Pair(FailWriting(7, 0, since, true, 2), true, Starting(7, RECLAIM_AFTER + 1)), {7})
  {
    var late := RECLAIM_AFTER + 1;
    run, since := ClaimedTwice(lags);
    var q := FailWriting(7, 0, since, true, 2);
    run := Then(lags, run, ReadAttempts(1), State(late, Table7(SECOND7), Pair(q, true, Starting(7, late)), {7}));
    run := SecondGivesBack(lags, run, q);
    run := SecondClaims(lags, run, BACK7, q);
  }

  lemma SecondGivesBack(lags: Setting, before: Run, first: Phase) returns (run: Run)
    requires IsRun(lags, before)
    requires Last(before) == State(RECLAIM_AFTER + 1, Table7(SECOND7), Pair(first, true, Starting(7, RECLAIM_AFTER + 1)), {7})
    ensures IsRun(lags, run)
    ensures Last(run) == State(RECLAIM_AFTER + 1, Table7(BACK7), Pair(first, true, Idle), {7})
  {
    var late := RECLAIM_AFTER + 1;
    run := SecondRunFails(lags, before, SECOND7, first);
    run := Then(lags, run, ReadAttempts(2),
                State(late, Table7(SECOND7), Pair(first, true, FailWriting(7, late, late, true, 2)), {7}));
    run := Then(lags, run, WriteFailure(2, ""), State(late, Table7(BACK7), Pair(first, true, Idle), {7}));
  }

  /** Then the first worker's failure is written with the count it read, and the request is taken a fourth time. */
  lemma FourthClaim(lags: Setting) returns (run: Run)
    requires !Fits(lags)
    ensures IsRun(lags, run) && 7 in Last(run).rows && Last(run).rows[7].attempts == 4
  {
    var late := RECLAIM_AFTER + 1;
    var since;
    run, since := ClaimedThrice(lags);
    var q := FailWriting(7, 0, since, true, 2);
    run := SecondRunFails(lags, run, THIRD7, q);
    run := Then(lags, run, FailThrows(2), State(late, Table7(THIRD7), Pair(q, true, Idle), {7}));
    run := Then(lags, run, WriteFailure(1, ""), State(late, Table7(FREED7), Pair(Stopped, true, Idle), {7}));
    run := SecondClaims(lags, run, FREED7, Stopped);
  }

  // ----- a timed-out process ------------------------------------------------

  /**
  A process whose run outlasted its timer claims nothing more, once its failure has
  been written down.
  */
  lemma {:induction false} TimedOutWorkerStops(lags: Setting, run: Run, i: nat, j: nat)
    requires IsRun(lags, run) && i < j <= |run.steps|
    requires run.steps[i].WriteFailure? && run.steps[i].w in run.states[i].workers
    requires run.states[i].workers[run.steps[i].w].orphaned
    ensures var w := run.steps[i].w;
            && w in run.states[j].workers
            && (run.states[j].workers[w].phase.Stopped? || run.states[j].workers[w].phase.Dead?)
            && (j < |run.steps| ==> !(run.steps[j].BeginClaim? && run.steps[j].w == w))
  {
    assert StepTaken(lags, run, j - 1);
    if j < |run.steps| {
      assert StepTaken(lags, run, j);
    }
    if j > i + 1 {
      TimedOutWorkerStops(lags, run, i, j - 1);
    }
  }
}
