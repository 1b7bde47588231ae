/**
Many workers, one queue, no locks held while a run is going. Each step below is
one statement, one timer or one thing the world does; runs are arbitrary
interleavings of them. `Setting` bounds the worker's own bookkeeping: from the
claim's clock reading to the timer being set, and from the run settling to the
last statement about it. `lostReplies` says whether a claim, a completion or a
failure may commit although the worker is told that it did not.
*/
module QueueProtocol {
  import opened Options
  import opened RequestQueue

  type WorkerId = nat

  datatype Setting = Setting(start: nat, finish: nat, lostReplies: bool)

  /** The bookkeeping fits inside the gap between the two timeouts. */
  predicate Fits(lags: Setting) {
    lags.start + RUN_TIMEOUT + lags.finish <= RECLAIM_AFTER
  }

  /** The setting in which a settled request stays settled. */
  predicate Sound(lags: Setting) {
    Fits(lags) && !lags.lostReplies
  }

  datatype Phase =
    | Idle
    | Claiming(id: RequestId, claimedAt: Instant)
    | Starting(id: RequestId, claimedAt: Instant)
    | Running(id: RequestId, claimedAt: Instant, timerAt: Instant)
    | Completing(id: RequestId, claimedAt: Instant, since: Instant)
    | Failing(id: RequestId, claimedAt: Instant, since: Instant, retryable: bool)
    | FailWriting(id: RequestId, claimedAt: Instant, since: Instant, retryable: bool, seen: nat)
    | Stopped
    | Dead
  {
    /** The claim has committed and the worker has not finished with the request. */
    predicate Waiting() {
      Starting? || Running? || Completing? || Failing? || FailWriting?
    }

    /** Waiting, or inside the claiming transaction with the row locked. */
    predicate Holding() {
      Waiting() || Claiming?
    }
  }

  /** `orphaned` is the process remembering that a run outlasted its timer. */
  datatype Worker = Worker(phase: Phase, orphaned: bool)

  datatype State = State(now: Instant, rows: Table, workers: map<WorkerId, Worker>, issued: set<RequestId>)

  datatype Step =
    | Tick(to: Instant)
    | Boot(w: WorkerId)
    | Die(w: WorkerId)
    | Submit(id: RequestId)
    | Cancel(id: RequestId)
    | Delete(id: RequestId)
    | BeginClaim(w: WorkerId, id: RequestId)
    | RollbackClaim(w: WorkerId)
    | CommitClaim(w: WorkerId)
    | ClaimUnheard(w: WorkerId)
    | StartTimer(w: WorkerId)
    | RunSucceeds(w: WorkerId)
    | RunFails(w: WorkerId, retryable: bool)
    | TimerFires(w: WorkerId)
    | Complete(w: WorkerId, assessment: AssessmentId)
    | CompleteThrows(w: WorkerId, retryable: bool)
    | CompleteUnheard(w: WorkerId, assessment: AssessmentId, retryable: bool)
    | ReadAttempts(w: WorkerId)
    | WriteFailure(w: WorkerId, error: string)
    | FailureUnheard(w: WorkerId, error: string)
    | FailThrows(w: WorkerId)
    | RequeueSweep
    | AbandonSweep

  /** Rows a claiming transaction has locked and not yet released. */
  function Locked(s: State): set<RequestId> {
    set w | w in s.workers && s.workers[w].phase.Claiming? :: s.workers[w].phase.id
  }

  /** How far the clock may run before this worker must have moved on. */
  function Deadline(lags: Setting, p: Phase): Option<Instant> {
    match p
    case Claiming(_, at) => Some(at + lags.start)
    case Starting(_, at) => Some(at + lags.start)
    case Running(_, _, timerAt) => Some(timerAt + RUN_TIMEOUT)
    case Completing(_, _, since) => Some(since + lags.finish)
    case Failing(_, _, since, _) => Some(since + lags.finish)
    case FailWriting(_, _, since, _, _) => Some(since + lags.finish)
    case _ => None
  }

  predicate MayTick(lags: Setting, s: State, to: Instant) {
    s.now <= to &&
    forall w | w in s.workers ::
      Deadline(lags, s.workers[w].phase).Some? ==> to <= Deadline(lags, s.workers[w].phase).value
  }

  predicate At(s: State, w: WorkerId) {
    w in s.workers
  }

  predicate Enabled(lags: Setting, s: State, step: Step) {
    match step
    case Tick(to) => MayTick(lags, s, to)
    case Boot(w) => !At(s, w)
    case Die(w) => At(s, w)
    case Submit(id) => id !in s.issued
    case Cancel(id) => id in s.rows && s.rows[id].status == Queued && id !in Locked(s)
    case Delete(id) => id in s.rows && id !in Locked(s)
    case BeginClaim(w, id) => At(s, w) && s.workers[w].phase.Idle? && IsNextClaim(s.rows, Locked(s), id)
    case RollbackClaim(w) => At(s, w) && s.workers[w].phase.Claiming?
    case CommitClaim(w) => At(s, w) && s.workers[w].phase.Claiming? && s.workers[w].phase.id in s.rows
    case ClaimUnheard(w) =>
      lags.lostReplies && At(s, w) && s.workers[w].phase.Claiming? && s.workers[w].phase.id in s.rows
    case StartTimer(w) => At(s, w) && s.workers[w].phase.Starting?
    case RunSucceeds(w) => At(s, w) && s.workers[w].phase.Running?
    case RunFails(w, _) => At(s, w) && s.workers[w].phase.Running?
    case TimerFires(w) => At(s, w) && s.workers[w].phase.Running? && s.now == s.workers[w].phase.timerAt + RUN_TIMEOUT
    case Complete(w, _) => At(s, w) && s.workers[w].phase.Completing?
    case CompleteThrows(w, _) => At(s, w) && s.workers[w].phase.Completing?
    case CompleteUnheard(w, _, _) =>
      lags.lostReplies && At(s, w) && s.workers[w].phase.Completing? && s.workers[w].phase.id in s.rows
    case ReadAttempts(w) => At(s, w) && s.workers[w].phase.Failing?
    case WriteFailure(w, _) => At(s, w) && s.workers[w].phase.FailWriting?
    case FailureUnheard(w, _) =>
      lags.lostReplies && At(s, w) && s.workers[w].phase.FailWriting? && s.workers[w].phase.id in s.rows
    case FailThrows(w) => At(s, w) && (s.workers[w].phase.Failing? || s.workers[w].phase.FailWriting?)
    case RequeueSweep => true
    case AbandonSweep => true
  }

  function Move(s: State, w: WorkerId, p: Phase): State
    requires At(s, w)
  {
    s.(workers := s.workers[w := s.workers[w].(phase := p)])
  }

  /** What the polling loop does once `processNextRequest` has returned. */
  function Returned(worker: Worker): Phase {
    if worker.orphaned then Stopped else Idle
  }

  predicate Requeues(p: Phase)
    requires p.FailWriting?
  {
    p.retryable && p.seen < MAX_ATTEMPTS
  }

  function NewRow(at: Instant): Row {
    Row(Queued, 0, at, None, None, None, None)
  }

  function Apply(lags: Setting, s: State, step: Step): State
    requires Enabled(lags, s, step)
  {
    match step
    case Tick(to) => s.(now := to)
    case Boot(w) => s.(workers := s.workers[w := Worker(Idle, false)])
    case Die(w) => Move(s, w, Dead)
    case Submit(id) => s.(rows := s.rows[id := NewRow(s.now)], issued := s.issued + {id})
    case Cancel(id) => s.(rows := s.rows[id := s.rows[id].(status := Cancelled)])
    case Delete(id) => s.(rows := s.rows - {id})
    case BeginClaim(w, id) => Move(s, w, Claiming(id, s.now))
    case RollbackClaim(w) => Move(s, w, Idle)
    case CommitClaim(w) =>
      var p := s.workers[w].phase;
      Move(s.(rows := s.rows[p.id := ClaimedRow(s.rows[p.id], p.claimedAt)]), w, Starting(p.id, p.claimedAt))
    case ClaimUnheard(w) =>
      var p := s.workers[w].phase;
      Move(s.(rows := s.rows[p.id := ClaimedRow(s.rows[p.id], p.claimedAt)]), w, Idle)
    case StartTimer(w) =>
      var p := s.workers[w].phase;
      Move(s, w, Running(p.id, p.claimedAt, s.now))
    case RunSucceeds(w) =>
      var p := s.workers[w].phase;
      Move(s, w, Completing(p.id, p.claimedAt, s.now))
    case RunFails(w, retryable) =>
      var p := s.workers[w].phase;
      Move(s, w, Failing(p.id, p.claimedAt, s.now, retryable))
    case TimerFires(w) =>
      var p := s.workers[w].phase;
      s.(workers := s.workers[w := Worker(Failing(p.id, p.claimedAt, s.now, true), true)])
    case Complete(w, assessment) =>
      var p := s.workers[w].phase;
      if p.id in s.rows then
        Move(s.(rows := s.rows[p.id := CompletedRow(s.rows[p.id], assessment, s.now)]), w, Returned(s.workers[w]))
      else
        Move(s, w, Failing(p.id, p.claimedAt, p.since, true))
    case CompleteThrows(w, retryable) =>
      var p := s.workers[w].phase;
      Move(s, w, Failing(p.id, p.claimedAt, p.since, retryable))
    case CompleteUnheard(w, assessment, retryable) =>
      var p := s.workers[w].phase;
      Move(s.(rows := s.rows[p.id := CompletedRow(s.rows[p.id], assessment, s.now)]), w,
           Failing(p.id, p.claimedAt, p.since, retryable))
    case ReadAttempts(w) =>
      var p := s.workers[w].phase;
      Move(s, w, FailWriting(p.id, p.claimedAt, p.since, p.retryable,
                             if p.id in s.rows then s.rows[p.id].attempts else MAX_ATTEMPTS))
    case WriteFailure(w, error) =>
      var p := s.workers[w].phase;
      if p.id in s.rows then
        Move(s.(rows := s.rows[p.id := FailedRow(s.rows[p.id], Requeues(p), error, s.now)]), w, Returned(s.workers[w]))
      else
        Move(s, w, Returned(s.workers[w]))
    case FailureUnheard(w, error) =>
      var p := s.workers[w].phase;
      Move(s.(rows := s.rows[p.id := FailedRow(s.rows[p.id], Requeues(p), error, s.now)]), w, Idle)
    case FailThrows(w) => Move(s, w, Idle)
    case RequeueSweep => s.(rows := RequeueStale(s.rows, s.now, RECLAIM_AFTER, MAX_ATTEMPTS))
    case AbandonSweep => s.(rows := AbandonStale(s.rows, s.now, RECLAIM_AFTER, MAX_ATTEMPTS))
  }

  // ----- runs ---------------------------------------------------------------

  predicate Init(s: State) {
    s.rows == map[] && s.workers == map[] && s.issued == {}
  }

  datatype Run = Run(states: seq<State>, steps: seq<Step>)

  predicate Follows(lags: Setting, s: State, step: Step, t: State) {
    Enabled(lags, s, step) && t == Apply(lags, s, step)
  }

  ghost predicate IsRun(lags: Setting, run: Run) {
    && |run.states| == |run.steps| + 1
    && Init(run.states[0])
    && forall i | 0 <= i < |run.steps| :: StepTaken(lags, run, i)
  }

  predicate StepTaken(lags: Setting, run: Run, i: nat)
    requires i < |run.steps| && |run.states| == |run.steps| + 1
  {
    Follows(lags, run.states[i], run.steps[i], run.states[i + 1])
  }

  // ----- the timed invariant ------------------------------------------------

  predicate RowFine(row: Row, now: Instant) {
    && row.attempts <= MAX_ATTEMPTS
    && (row.status == Queued ==> row.attempts < MAX_ATTEMPTS)
    && (row.status == Claimed ==> row.attempts >= 1 && row.claimedAt.Some? && row.claimedAt.value <= now)
  }

  /** The clock facts that keep a holder's claim younger than the reclaim age. */
  predicate Timely(lags: Setting, p: Phase, now: Instant) {
    match p
    case Claiming(_, at) => at <= now <= at + lags.start
    case Starting(_, at) => at <= now <= at + lags.start
    case Running(_, at, timerAt) => at <= timerAt <= at + lags.start && timerAt <= now <= timerAt + RUN_TIMEOUT
    case Completing(_, at, since) => at <= since <= at + lags.start + RUN_TIMEOUT && since <= now <= since + lags.finish
    case Failing(_, at, since, _) => at <= since <= at + lags.start + RUN_TIMEOUT && since <= now <= since + lags.finish
    case FailWriting(_, at, since, _, _) =>
      at <= since <= at + lags.start + RUN_TIMEOUT && since <= now <= since + lags.finish
    case _ => true
  }

  /** The row a holder holds is its own claim as it made it, or its own completion if it was not told of that. */
  predicate Owns(lags: Setting, rows: Table, p: Phase) {
    p.Holding() && p.id in rows ==>
      && (|| rows[p.id].status == (if p.Claiming? then Queued else Claimed)
          || (lags.lostReplies && (p.Failing? || p.FailWriting?) && rows[p.id].status == Completed))
      && (p.Waiting() ==> rows[p.id].claimedAt == Some(p.claimedAt))
      && (p.FailWriting? ==> p.seen == rows[p.id].attempts)
  }

  predicate WorkerFine(lags: Setting, s: State, p: Phase) {
    && Timely(lags, p, s.now)
    && Owns(lags, s.rows, p)
    && (p.Holding() ==> p.id in s.issued)
    && (p.Claiming? ==> p.id in s.rows)
    && (p.FailWriting? && p.id !in s.rows ==> p.seen <= MAX_ATTEMPTS)
  }

  predicate NoSharing(s: State) {
    forall v, w | v in s.workers && w in s.workers && v != w ::
      s.workers[v].phase.Holding() && s.workers[w].phase.Holding() ==> s.workers[v].phase.id != s.workers[w].phase.id
  }

  predicate Inv(lags: Setting, s: State) {
    && (forall id | id in s.rows :: id in s.issued && RowFine(s.rows[id], s.now))
    && (forall w | w in s.workers :: WorkerFine(lags, s, s.workers[w].phase))
    && NoSharing(s)
  }

  lemma StaleMeansUnheld(lags: Setting, s: State, w: WorkerId)
    requires Fits(lags) && Inv(lags, s)
    requires w in s.workers && s.workers[w].phase.Holding() && s.workers[w].phase.id in s.rows
    ensures !Stale(s.rows[s.workers[w].phase.id], s.now, RECLAIM_AFTER)
  {
    assert WorkerFine(lags, s, s.workers[w].phase);
  }

  /** The worker a step belongs to, if it is a worker's step. */
  function Actor(step: Step): Option<WorkerId> {
    match step
    case Boot(w) => Some(w)
    case Die(w) => Some(w)
    case BeginClaim(w, _) => Some(w)
    case RollbackClaim(w) => Some(w)
    case CommitClaim(w) => Some(w)
    case ClaimUnheard(w) => Some(w)
    case StartTimer(w) => Some(w)
    case RunSucceeds(w) => Some(w)
    case RunFails(w, _) => Some(w)
    case TimerFires(w) => Some(w)
    case Complete(w, _) => Some(w)
    case CompleteThrows(w, _) => Some(w)
    case CompleteUnheard(w, _, _) => Some(w)
    case ReadAttempts(w) => Some(w)
    case WriteFailure(w, _) => Some(w)
    case FailureUnheard(w, _) => Some(w)
    case FailThrows(w) => Some(w)
    case _ => None
  }

  lemma RowsStayFine(lags: Setting, s: State, step: Step, id: RequestId)
    requires Fits(lags) && Inv(lags, s) && Enabled(lags, s, step)
    requires id in Apply(lags, s, step).rows
    ensures id in Apply(lags, s, step).issued && RowFine(Apply(lags, s, step).rows[id], Apply(lags, s, step).now)
  {
    if id in s.rows {
      assert RowFine(s.rows[id], s.now);
    }
    if Actor(step).Some? && Actor(step).value in s.workers {
      assert WorkerFine(lags, s, s.workers[Actor(step).value].phase);
    }
  }

  /**
  While a worker holds a request, nobody else's step changes that row: not another
  worker's unguarded write, not a sweep, not a customer's cancellation. It can only
  be deleted, and not while the claiming transaction has it locked.
  */
  lemma HeldRowIsUntouched(lags: Setting, s: State, step: Step, w: WorkerId)
    requires Fits(lags) && Inv(lags, s) && Enabled(lags, s, step)
    requires w in s.workers && s.workers[w].phase.Holding() && Actor(step) != Some(w)
    ensures var p := s.workers[w].phase;
            var t := Apply(lags, s, step);
            && w in t.workers && t.workers[w] == s.workers[w]
            && (p.id in t.rows ==> p.id in s.rows && t.rows[p.id] == s.rows[p.id])
            && (p.id in s.rows && p.id !in t.rows ==> step == Delete(p.id) && p.Waiting())
  {
    var p := s.workers[w].phase;
    assert WorkerFine(lags, s, p);
    if p.Claiming? {
      assert p.id in Locked(s);
    }
    if p.id in s.rows {
      StaleMeansUnheld(lags, s, w);
    }
  }

  lemma OwnStepStaysFine(lags: Setting, s: State, step: Step, w: WorkerId)
    requires Fits(lags) && Inv(lags, s) && Enabled(lags, s, step)
    requires Actor(step) == Some(w)
    ensures WorkerFine(lags, Apply(lags, s, step), Apply(lags, s, step).workers[w].phase)
  {
    if w in s.workers {
      assert WorkerFine(lags, s, s.workers[w].phase);
      if s.workers[w].phase.Holding() && s.workers[w].phase.id in s.rows {
        assert RowFine(s.rows[s.workers[w].phase.id], s.now);
      }
    }
  }

  lemma WorkersStayFine(lags: Setting, s: State, step: Step, w: WorkerId)
    requires Fits(lags) && Inv(lags, s) && Enabled(lags, s, step)
    requires w in Apply(lags, s, step).workers
    ensures WorkerFine(lags, Apply(lags, s, step), Apply(lags, s, step).workers[w].phase)
  {
    if Actor(step) == Some(w) {
      OwnStepStaysFine(lags, s, step, w);
    } else {
      assert WorkerFine(lags, s, s.workers[w].phase);
      if s.workers[w].phase.Holding() {
        HeldRowIsUntouched(lags, s, step, w);
      }
    }
  }

  lemma StillNoSharing(lags: Setting, s: State, step: Step)
    requires Fits(lags) && Inv(lags, s) && Enabled(lags, s, step)
    ensures NoSharing(Apply(lags, s, step))
  {
    if step.BeginClaim? {
      forall w | w in s.workers && s.workers[w].phase.Holding()
        ensures s.workers[w].phase.id != step.id
      {
        assert WorkerFine(lags, s, s.workers[w].phase);
        if s.workers[w].phase.Claiming? {
          assert s.workers[w].phase.id in Locked(s);
        }
      }
    }
  }

  lemma InvStep(lags: Setting, s: State, step: Step)
    requires Fits(lags) && Inv(lags, s) && Enabled(lags, s, step)
    ensures Inv(lags, Apply(lags, s, step))
  {
    var t := Apply(lags, s, step);
    forall id | id in t.rows ensures id in t.issued && RowFine(t.rows[id], t.now) {
      RowsStayFine(lags, s, step, id);
    }
    forall w | w in t.workers ensures WorkerFine(lags, t, t.workers[w].phase) {
      WorkersStayFine(lags, s, step, w);
    }
    StillNoSharing(lags, s, step);
  }
}
