/**
The durable assessment queue: one table of requests, taken and settled by the
four operations of the worker. Times are whole milliseconds on the database's
clock.
*/
module RequestQueue {
  import opened Options

  type RequestId = nat
  type AssessmentId = nat
  type Instant = int

  datatype Status = Queued | Claimed | Completed | Failed | Cancelled | Refused

  datatype Row = Row(
    status: Status,
    attempts: nat,
    createdAt: Instant,
    claimedAt: Option<Instant>,
    completedAt: Option<Instant>,
    assessment: Option<AssessmentId>,
    lastError: Option<string>)

  type Table = map<RequestId, Row>

  const MINUTE: int := 60_000
  const RUN_TIMEOUT: int := 60 * MINUTE
  const RECLAIM_AFTER: int := 90 * MINUTE
  const MAX_ATTEMPTS: nat := 3
  const ERROR_LENGTH: nat := 2000

  const RECLAIMED := "The worker running this stopped without finishing. Requeued."
  const RAN_OUT := "The worker running this stopped without finishing, and it had no attempts left. " +
    "Nothing was charged for the attempt that did not complete."

  predicate Terminal(status: Status) {
    status != Queued && status != Claimed
  }

  // ----- what each statement does to the row it matches ---------------------

  function ClaimedRow(row: Row, at: Instant): Row {
    row.(status := Claimed, claimedAt := Some(at), attempts := row.attempts + 1)
  }

  function CompletedRow(row: Row, assessment: AssessmentId, at: Instant): Row {
    row.(status := Completed, assessment := Some(assessment), completedAt := Some(at))
  }

  /** The failure is written by id alone: nothing here looks at the row's status. */
  function FailedRow(row: Row, requeue: bool, error: string, at: Instant): Row {
    row.(status := if requeue then Queued else Failed,
         lastError := Some(Clip(error)),
         completedAt := if requeue then None else Some(at),
         claimedAt := if requeue then None else row.claimedAt)
  }

  function Clip(error: string): string {
    if |error| <= ERROR_LENGTH then error else error[..ERROR_LENGTH]
  }

  /** A claim old enough for the reclaim sweep to take back. */
  predicate Stale(row: Row, now: Instant, after: int) {
    row.status == Claimed && row.claimedAt.Some? && row.claimedAt.value < now - after
  }

  function RequeuedRow(row: Row): Row {
    row.(status := Queued, claimedAt := None, lastError := Some(RECLAIMED))
  }

  function AbandonedRow(row: Row, now: Instant): Row {
    row.(status := Failed, completedAt := Some(now), lastError := Some(RAN_OUT))
  }

  /** First reclaim statement: stale claims with attempts left go back to the queue. */
  function RequeueStale(rows: Table, now: Instant, after: int, maxAttempts: nat): (r: Table)
    ensures r.Keys == rows.Keys
  {
    map id | id in rows ::
      if Stale(rows[id], now, after) && rows[id].attempts < maxAttempts then RequeuedRow(rows[id]) else rows[id]
  }

  /** Second reclaim statement: stale claims with none left are written down as failed. */
  function AbandonStale(rows: Table, now: Instant, after: int, maxAttempts: nat): (r: Table)
    ensures r.Keys == rows.Keys
  {
    map id | id in rows ::
      if Stale(rows[id], now, after) && rows[id].attempts >= maxAttempts then AbandonedRow(rows[id], now) else rows[id]
  }

  /** Rows a claim may look at: queued, and not locked by another transaction. */
  predicate Claimable(rows: Table, locked: set<RequestId>, id: RequestId) {
    id in rows && rows[id].status == Queued && id !in locked
  }

  /** `order by created_at for update skip locked limit 1`. */
  predicate IsNextClaim(rows: Table, locked: set<RequestId>, id: RequestId) {
    Claimable(rows, locked, id) &&
    forall other | other in rows && Claimable(rows, locked, other) :: rows[id].createdAt <= rows[other].createdAt
  }

  lemma {:induction false} SomeoneIsNext(rows: Table, locked: set<RequestId>,
                                         candidates: set<RequestId>) returns (id: RequestId)
    requires candidates != {}
    requires forall c | c in candidates :: Claimable(rows, locked, c)
    ensures id in candidates && Claimable(rows, locked, id)
    ensures forall c | c in candidates :: c in rows && rows[id].createdAt <= rows[c].createdAt
    decreases candidates
  {
    var first :| first in candidates;
    id := first;
    var rest := candidates - {first};
    if rest != {} {
      var best := SomeoneIsNext(rows, locked, rest);
      if rows[best].createdAt < rows[first].createdAt {
        id := best;
      }
    }
    forall c | c in candidates ensures c in rows && rows[id].createdAt <= rows[c].createdAt {
      assert c == first || c in rest;
    }
  }

  // ----- what counts as worth another attempt ------------------------------

  /** An error as the queue sees it: one of ours that says so, or a SQLSTATE, or neither. */
  datatype Failure = Unretryable | SqlError(code: string) | Other

  const UNRETRYABLE_CLASSES := ["22", "23", "42"]

  function IsRetryableFailure(error: Failure): (retry: bool)
    ensures !retry <==>
      || error.Unretryable?
      || (error.SqlError? && ("22" <= error.code || "23" <= error.code || "42" <= error.code))
  {
    match error
    case Unretryable => false
    case Other => true
    case SqlError(code) =>
      var head := if |code| <= 2 then code else code[..2];
      assert UNRETRYABLE_CLASSES[0] == "22" && UNRETRYABLE_CLASSES[1] == "23" && UNRETRYABLE_CLASSES[2] == "42";
      assert forall refused | refused in UNRETRYABLE_CLASSES :: refused in ["22", "23", "42"];
      assert forall prefix: string | |prefix| == 2 :: prefix <= code <==> head == prefix;
      head !in UNRETRYABLE_CLASSES
  }

  // ----- the table itself ---------------------------------------------------

  datatype ClaimResult = Nothing | Took(id: RequestId, attempts: nat) | ClaimThrew
  datatype CompleteResult = Marked | NotThere | CompleteThrew
  datatype FailResult = Requeued | GaveUp | FailThrew

  class RequestTable {
    var rows: Table

    constructor ()
      ensures rows == map[]
    {
      rows := map[];
    }

    /** One transaction: the oldest claimable row, or nothing, or an error and no change. */
    method ClaimNextRequest(now: Instant, locked: set<RequestId>, databaseFails: bool) returns (r: ClaimResult)
      modifies this
      ensures r.ClaimThrew? <==> databaseFails
      ensures r.Nothing? ==> forall id | id in old(rows) :: old(rows)[id].status != Queued || id in locked
      ensures r.Took? ==> IsNextClaim(old(rows), locked, r.id)
      ensures r.Took? ==> r.id in old(rows) && old(rows)[r.id].status == Queued && r.id !in locked
      ensures r.Took? ==> forall id | id in old(rows) && old(rows)[id].status == Queued && id !in locked ::
        old(rows)[r.id].createdAt <= old(rows)[id].createdAt
      ensures r.Took? ==> r.attempts == old(rows)[r.id].attempts + 1
      ensures r.Took? ==>
        rows == old(rows)[r.id := old(rows)[r.id].(status := Claimed, claimedAt := Some(now), attempts := r.attempts)]
      ensures !r.Took? ==> rows == old(rows)
    {
      if databaseFails {
        return ClaimThrew;
      }
      var candidates := set id | id in rows && Claimable(rows, locked, id);
      if candidates == {} {
        assert forall id | id in rows && Claimable(rows, locked, id) :: id in candidates;
        return Nothing;
      }
      ghost var witness' := SomeoneIsNext(rows, locked, candidates);
      assert IsNextClaim(rows, locked, witness');
      var id :| id in candidates && IsNextClaim(rows, locked, id);
      rows := rows[id := ClaimedRow(rows[id], now)];
      return Took(id, rows[id].attempts);
    }

    method CompleteRequest(id: RequestId, assessment: AssessmentId, now: Instant, databaseFails: bool)
      returns (r: CompleteResult)
      modifies this
      ensures r.CompleteThrew? <==> databaseFails
      ensures r.NotThere? <==> !databaseFails && id !in old(rows)
      ensures !r.Marked? ==> rows == old(rows)
      ensures r.Marked? ==>
        rows == old(rows)[id := old(rows)[id].(status := Completed, assessment := Some(assessment), completedAt := Some(now))]
    {
      if databaseFails {
        return CompleteThrew;
      }
      if id !in rows {
        return NotThere;
      }
      rows := rows[id := CompletedRow(rows[id], assessment, now)];
      return Marked;
    }

    /** A read and then a write; a row that is not there counts as having no attempts left. */
    method FailRequest(id: RequestId, error: string, retryable: bool, maxAttempts: nat, now: Instant,
                       readFails: bool, writeFails: bool)
      returns (r: FailResult)
      modifies this
      ensures r.FailThrew? <==> readFails || writeFails
      ensures r.Requeued? <==>
        !readFails && !writeFails && retryable && id in old(rows) && old(rows)[id].attempts < maxAttempts
      ensures r.FailThrew? || id !in old(rows) ==> rows == old(rows)
      ensures OthersStand(old(rows), rows, id)
      ensures !r.FailThrew? && id in old(rows) ==>
        && rows[id].createdAt == old(rows)[id].createdAt && rows[id].attempts == old(rows)[id].attempts
        && rows[id].assessment == old(rows)[id].assessment
        && rows[id].lastError == Some(if |error| <= 2000 then error else error[..2000])
      ensures r.Requeued? ==> rows[id].status == Queued && rows[id].claimedAt == None && rows[id].completedAt == None
      ensures r.GaveUp? && id in old(rows) ==>
        rows[id].status == Failed && rows[id].claimedAt == old(rows)[id].claimedAt && rows[id].completedAt == Some(now)
    {
      if readFails {
        return FailThrew;
      }
      var attempts := if id in rows then rows[id].attempts else maxAttempts;
      var requeue := retryable && attempts < maxAttempts;
      if writeFails {
        return FailThrew;
      }
      if id in rows {
        rows := rows[id := FailedRow(rows[id], requeue, error, now)];
      }
      return if requeue then Requeued else GaveUp;
    }

    /** A claim too old goes back to the queue while it has attempts left, and is written down as failed when it has none. */
    method ReclaimStaleRequests(now: Instant, maxAttempts: nat, afterMinutes: nat)
      returns (requeued: nat, abandoned: nat)
      modifies this
      ensures rows == AbandonStale(RequeueStale(old(rows), now, afterMinutes * MINUTE, maxAttempts),
                                   now, afterMinutes * MINUTE, maxAttempts)
      ensures rows.Keys == old(rows).Keys
      ensures forall id | id in old(rows) ::
        var row := old(rows)[id];
        rows[id] ==
          if row.status != Claimed || row.claimedAt == None || now - row.claimedAt.value <= afterMinutes * 60_000 then row
          else if row.attempts < maxAttempts then row.(status := Queued, claimedAt := None, lastError := Some(RECLAIMED))
          else row.(status := Failed, completedAt := Some(now), lastError := Some(RAN_OUT))
      ensures requeued == |Moved(old(rows), rows, Queued)| && abandoned == |Moved(old(rows), rows, Failed)|
      ensures requeued + abandoned == |set id | id in old(rows) && Stale(old(rows)[id], now, afterMinutes * MINUTE)|
      ensures forall id | id in rows :: !Stale(rows[id], now, afterMinutes * MINUTE)
    {
      var after := afterMinutes * MINUTE;
      ghost var before := rows;
      var back := set id | id in rows && Stale(rows[id], now, after) && rows[id].attempts < maxAttempts;
      requeued := |back|;
      rows := RequeueStale(rows, now, after, maxAttempts);
      var spent := set id | id in rows && Stale(rows[id], now, after) && rows[id].attempts >= maxAttempts;
      abandoned := |spent|;
      rows := AbandonStale(rows, now, after, maxAttempts);
      StaleSplits(before, back, spent, now, after, maxAttempts);
    }
  }

  predicate OthersStand(before: Table, after: Table, id: RequestId) {
    before.Keys == after.Keys && forall other | other in before && other != id :: after[other] == before[other]
  }

  function Moved(before: Table, after: Table, to: Status): set<RequestId> {
    set id | id in before && id in after && before[id].status == Claimed && after[id].status == to
  }

  /** The two statements between them take every stale row, each once, and nothing else. */
  lemma StaleSplits(rows: Table, back: set<RequestId>, spent: set<RequestId>, now: Instant, after: int,
                    maxAttempts: nat)
    requires back == set id | id in rows && Stale(rows[id], now, after) && rows[id].attempts < maxAttempts
    requires var requeued := RequeueStale(rows, now, after, maxAttempts);
      spent == set id | id in requeued && Stale(requeued[id], now, after) && requeued[id].attempts >= maxAttempts
    ensures var left := AbandonStale(RequeueStale(rows, now, after, maxAttempts), now, after, maxAttempts);
      back == Moved(rows, left, Queued) && spent == Moved(rows, left, Failed)
    ensures |back| + |spent| == |set id | id in rows && Stale(rows[id], now, after)|
  {
    forall id | id in rows {
      ReclaimedOne(rows, id, now, after, maxAttempts);
    }
    var stale := set id | id in rows && Stale(rows[id], now, after);
    assert stale == back + spent && back !! spent;
  }

  lemma ReclaimedOne(rows: Table, id: RequestId, now: Instant, after: int, maxAttempts: nat)
    requires id in rows
    ensures
      var left := AbandonStale(RequeueStale(rows, now, after, maxAttempts), now, after, maxAttempts);
      && (id in Moved(rows, left, Queued) <==> Stale(rows[id], now, after) && rows[id].attempts < maxAttempts)
      && (id in Moved(rows, left, Failed) <==> Stale(rows[id], now, after) && rows[id].attempts >= maxAttempts)
  {
  }
}
