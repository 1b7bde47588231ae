/**
What a retention sweep comes to, told from the rows and the answers alone: which rows,
joins and bytes are left, what was written down and in what order, and the five counts.
*/
module RetentionOutcome {
  import opened Options
  import opened Counting
  import opened OrphanAudit
  import opened EvidenceStore
  import opened RetentionSweep

  // ----- which rows are due -------------------------------------------------

  lemma {:induction false} DueInOrder(before: seq<DueRow>, after: seq<DueRow>, at: Instant)
    ensures DueForDeletion(before + after, at) == DueForDeletion(before, at) + DueForDeletion(after, at)
  {
    if before == [] {
      assert before + after == after;
    } else {
      assert (before + after)[1..] == before[1..] + after;
      DueInOrder(before[1..], after, at);
    }
  }

  lemma OneDue(row: DueRow, at: Instant)
    ensures DueForDeletion([row], at) == if row.retentionUntil < at then [row] else []
  {
    assert [row][1..] == [];
  }

  // ----- the first pass -----------------------------------------------------

  /** A row goes exactly when its deletion works, its joins with it, and nothing else of either table. */
  lemma FirstPassRows(t: Tables, rows: seq<DueRow>, storage: bool, answers: SweepAnswers)
    ensures var u := DeleteFrom(Progress(t, NOTHING_YET), rows, 0, storage, answers).tables;
      && (forall id :: id in u.evidence <==> id in t.evidence && forall k | 0 <= k < |rows| && rows[k].id == id :: !answers.deletes(k))
      && (forall id | id in u.evidence :: u.evidence[id] == t.evidence[id])
      && (forall link :: link in u.links <==>
            link in t.links && forall k | 0 <= k < |rows| && rows[k].id == link.evidence :: !answers.deletes(k))
  {
    DeletionsAreRecorded(Progress(t, NOTHING_YET), rows, 0, storage, answers);
    GoneIds(rows, 0, answers);
    var gone := Ids(Gone(rows, 0, answers));
    assert forall id :: id in gone <==> exists k | 0 <= k < |rows| && rows[k].id == id :: answers.deletes(k);
  }

  lemma {:induction false} GoneIds(rows: seq<DueRow>, i: nat, answers: SweepAnswers)
    requires i <= |rows|
    ensures forall id :: id in Ids(Gone(rows, i, answers)) <==> exists k | i <= k < |rows| && rows[k].id == id :: answers.deletes(k)
    decreases |rows| - i
  {
    if i < |rows| {
      GoneIds(rows, i + 1, answers);
      var first, rest := GoneAt(rows[i], i, answers), Gone(rows, i + 1, answers);
      assert Ids(first + rest) == Ids(first) + Ids(rest);
      forall id
        ensures id in Ids(first + rest) <==> exists k | i <= k < |rows| && rows[k].id == id :: answers.deletes(k)
      {
        if id in Ids(first) {
          assert answers.deletes(i) && rows[i].id == id;
        }
      }
    }
  }

  /** Bytes go exactly with a row of theirs that goes, there being a store and its giving them up. */
  lemma FirstPassBytes(t: Tables, rows: seq<DueRow>, storage: bool, answers: SweepAnswers, p: Path)
    ensures p in DeleteFrom(Progress(t, NOTHING_YET), rows, 0, storage, answers).tables.store <==>
      p in t.store && forall k | 0 <= k < |rows| && rows[k].path == p :: !(answers.deletes(k) && storage && answers.removes(k))
  {
    BytesGoWithTheirRow(Progress(t, NOTHING_YET), rows, 0, storage, answers, p);
  }

  /** The deletion's record is its row's own, after the records of the deletions before it. */
  lemma FirstPassRecords(t: Tables, rows: seq<DueRow>, storage: bool, answers: SweepAnswers, k: nat)
    requires k < |rows|
    ensures var u := DeleteFrom(Progress(t, NOTHING_YET), rows, 0, storage, answers).tables;
      && t.deletions <= u.deletions
      && |u.deletions| == |t.deletions| + |set j: nat | j < |rows| && answers.deletes(j)|
      && (answers.deletes(k) ==>
            var before := |set j: nat | j < k && answers.deletes(j)|;
            |t.deletions| + before < |u.deletions|
            && u.deletions[|t.deletions| + before] == Deletion(rows[k].id, rows[k].sha256, rows[k].retentionUntil))
  {
    var u := DeleteFrom(Progress(t, NOTHING_YET), rows, 0, storage, answers).tables;
    DeletionsAreRecorded(Progress(t, NOTHING_YET), rows, 0, storage, answers);
    NumberIsOfCalls(answers.deletes, |rows|);
    NumberIsOfCalls(answers.deletes, k);
    GoneInOrder(rows, 0, answers, k);
  }

  lemma {:induction false} GoneInOrder(rows: seq<DueRow>, i: nat, answers: SweepAnswers, k: nat)
    requires i <= |rows|
    ensures |Gone(rows, i, answers)| == Number(answers.deletes, i, |rows|)
    ensures i <= k < |rows| && answers.deletes(k) ==>
      var at := Number(answers.deletes, i, k); at < |Gone(rows, i, answers)| && Gone(rows, i, answers)[at] == rows[k]
    decreases |rows| - i
  {
    if i < |rows| {
      GoneInOrder(rows, i + 1, answers, k);
    }
  }

  /** The row went, its bytes did not, and that was written down. */
  function Noted(answers: SweepAnswers): nat -> bool {
    (k: nat) => answers.deletes(k) && !answers.removes(k) && answers.records(k)
  }

  /** The log gains one orphan for each row whose bytes stayed, if that record is taken, in the rows' order. */
  lemma FirstPassOrphans(t: Tables, rows: seq<DueRow>, answers: SweepAnswers, k: nat)
    requires k < |rows|
    ensures var u := DeleteFrom(Progress(t, NOTHING_YET), rows, 0, true, answers).tables;
      && t.audit <= u.audit
      && |u.audit| == |t.audit| + |set j: nat | j < |rows| && answers.deletes(j) && !answers.removes(j) && answers.records(j)|
      && (answers.deletes(k) && !answers.removes(k) && answers.records(k) ==>
            var before := |set j: nat | j < k && answers.deletes(j) && !answers.removes(j) && answers.records(j)|;
            |t.audit| + before < |u.audit| && u.audit[|t.audit| + before] == Orphaned(Some(rows[k].id), rows[k].path))
  {
    DeletionsAreRecorded(Progress(t, NOTHING_YET), rows, 0, true, answers);
    NotedAre(answers, |rows|);
    NotedAre(answers, k);
    OrphansInOrder(rows, 0, answers, k);
  }

  lemma NotedAre(answers: SweepAnswers, n: nat)
    ensures Number(Noted(answers), 0, n) == |set j: nat | j < n && answers.deletes(j) && !answers.removes(j) && answers.records(j)|
  {
    NumberIsOfCalls(Noted(answers), n);
    assert (set j: nat | j < n && Noted(answers)(j))
        == set j: nat | j < n && answers.deletes(j) && !answers.removes(j) && answers.records(j);
  }

  lemma {:induction false} OrphansInOrder(rows: seq<DueRow>, i: nat, answers: SweepAnswers, k: nat)
    requires i <= |rows|
    ensures |NewOrphans(rows, i, true, answers)| == Number(Noted(answers), i, |rows|)
    ensures i <= k < |rows| && Noted(answers)(k) ==>
      var at := Number(Noted(answers), i, k);
      at < |NewOrphans(rows, i, true, answers)|
      && NewOrphans(rows, i, true, answers)[at] == Orphaned(Some(rows[k].id), rows[k].path)
    decreases |rows| - i
  {
    if i < |rows| {
      OrphansInOrder(rows, i + 1, answers, k);
    }
  }

  /** Deleted are the rows that went with their bytes, or with no store to ask; orphaned those whose bytes stayed. */
  lemma FirstPassCounts(t: Tables, rows: seq<DueRow>, storage: bool, answers: SweepAnswers)
    ensures var r := DeleteFrom(Progress(t, NOTHING_YET), rows, 0, storage, answers).tally;
      && r.evidenceDeleted == |set k: nat | k < |rows| && answers.deletes(k) && (!storage || answers.removes(k))|
      && r.artefactsOrphaned == |set k: nat | k < |rows| && answers.deletes(k) && storage && !answers.removes(k)|
      && r.artefactsRecovered == 0 && r.artefactsOutstanding == 0 && r.artefactsUnreadable == 0
  {
    DeletionsAreCounted(Progress(t, NOTHING_YET), rows, 0, storage, answers);
    NumberIsOfCalls(Cleared(storage, answers), |rows|);
    NumberIsOfCalls(Refused(storage, answers), |rows|);
    assert (set k: nat | k < |rows| && Cleared(storage, answers)(k))
        == set k: nat | k < |rows| && answers.deletes(k) && (!storage || answers.removes(k));
    assert (set k: nat | k < |rows| && Refused(storage, answers)(k))
        == set k: nat | k < |rows| && answers.deletes(k) && storage && !answers.removes(k);
  }

  // ----- the second pass ----------------------------------------------------

  /** Asked again, bytes go exactly where a readable orphan's removal works; rows and joins are left alone. */
  lemma SecondPassBytes(p: Progress, orphans: seq<AuditRow>, answers: SweepAnswers, at: Path)
    ensures var u := RetryFrom(p, orphans, 0, answers).tables;
      && u.evidence == p.tables.evidence && u.links == p.tables.links && u.deletions == p.tables.deletions
      && (at in u.store <==>
            at in p.tables.store
            && forall k | 0 <= k < |orphans| && orphans[k].Orphaned? && orphans[k].path == at :: !answers.removesLater(k))
  {
    RetriesAreCounted(p, orphans, 0, answers);
    RetriesRemove(p, orphans, 0, answers, at);
  }

  /** A readable orphan whose bytes the store gave up, and that was written down. */
  function Regained(orphans: seq<AuditRow>, answers: SweepAnswers): nat -> bool {
    (k: nat) => k < |orphans| && orphans[k].Orphaned? && answers.removesLater(k) && answers.recordsLater(k)
  }

  lemma RegainedAre(orphans: seq<AuditRow>, answers: SweepAnswers, n: nat)
    requires n <= |orphans|
    ensures Number(Regained(orphans, answers), 0, n)
         == |set j: nat | j < n && orphans[j].Orphaned? && answers.removesLater(j) && answers.recordsLater(j)|
  {
    NumberIsOfCalls(Regained(orphans, answers), n);
    assert (set j: nat | j < n && Regained(orphans, answers)(j))
        == set j: nat | j < n && orphans[j].Orphaned? && answers.removesLater(j) && answers.recordsLater(j);
  }

  lemma {:induction false} RecoveriesInOrder(orphans: seq<AuditRow>, i: nat, answers: SweepAnswers, k: nat)
    requires i <= |orphans|
    ensures |Recoveries(orphans, i, answers)| == Number(Regained(orphans, answers), i, |orphans|)
    ensures i <= k < |orphans| && Regained(orphans, answers)(k) ==>
      var at := Number(Regained(orphans, answers), i, k);
      at < |Recoveries(orphans, i, answers)|
      && Recoveries(orphans, i, answers)[at] == RemovedLater(orphans[k].entity, orphans[k].path)
    decreases |orphans| - i
  {
    if i < |orphans| {
      RecoveriesInOrder(orphans, i + 1, answers, k);
    }
  }

  /** The log gains one recovery for each orphan regained, naming its row and its path, in the orphans' order. */
  lemma SecondPassRecoveries(p: Progress, orphans: seq<AuditRow>, answers: SweepAnswers, k: nat)
    requires k < |orphans|
    ensures var u := RetryFrom(p, orphans, 0, answers).tables;
      && p.tables.audit <= u.audit
      && |u.audit| == |p.tables.audit|
           + |set j: nat | j < |orphans| && orphans[j].Orphaned? && answers.removesLater(j) && answers.recordsLater(j)|
      && (orphans[k].Orphaned? && answers.removesLater(k) && answers.recordsLater(k) ==>
            var before := |set j: nat | j < k && orphans[j].Orphaned? && answers.removesLater(j) && answers.recordsLater(j)|;
            && |p.tables.audit| + before < |u.audit|
            && u.audit[|p.tables.audit| + before] == RemovedLater(orphans[k].entity, orphans[k].path))
  {
    RetriesAreCounted(p, orphans, 0, answers);
    RegainedAre(orphans, answers, |orphans|);
    RegainedAre(orphans, answers, k);
    RecoveriesInOrder(orphans, 0, answers, k);
  }

  /** Recovered are those regained and written down, unreadable those with no path; the first pass's counts stand. */
  lemma SecondPassCounts(p: Progress, orphans: seq<AuditRow>, answers: SweepAnswers)
    ensures var r := RetryFrom(p, orphans, 0, answers).tally;
      && r.artefactsRecovered == p.tally.artefactsRecovered
           + |set k: nat | k < |orphans| && orphans[k].Orphaned? && answers.removesLater(k) && answers.recordsLater(k)|
      && r.artefactsUnreadable == p.tally.artefactsUnreadable + |set k: nat | k < |orphans| && !orphans[k].Orphaned?|
      && r.evidenceDeleted == p.tally.evidenceDeleted && r.artefactsOrphaned == p.tally.artefactsOrphaned
      && r.artefactsOutstanding == p.tally.artefactsOutstanding
  {
    RetriesAreCounted(p, orphans, 0, answers);
    RegainedAre(orphans, answers, |orphans|);
    RecoveriesInOrder(orphans, 0, answers, 0);
    NumberIsOfCalls(Illegible(orphans), |orphans|);
    assert (set k: nat | k < |orphans| && Illegible(orphans)(k)) == set k: nat | k < |orphans| && !orphans[k].Orphaned?;
  }

  // ----- the sweep ----------------------------------------------------------

  /** A row is in the backlog exactly when no recovery in the log is of its path, or of its evidence row. */
  lemma InBacklogIff(audit: seq<AuditRow>, row: AuditRow)
    ensures row in Backlog(audit) <==>
      && row in audit && !row.RemovedLater?
      && forall later | later in audit && later.RemovedLater? ::
           (row.Orphaned? ==> later.path != row.path) && (row.entity.Some? ==> later.entity != row.entity)
  {
    AmongIff(audit, audit, row);
    assert forall later | later in audit && later.RemovedLater? ::
      Resolves(later, row) <==> (row.Orphaned? && later.path == row.path) || (row.entity.Some? && later.entity == row.entity);
  }

  lemma {:induction false} AmongIff(rows: seq<AuditRow>, audit: seq<AuditRow>, row: AuditRow)
    ensures row in UnresolvedAmong(rows, audit) <==> row in rows && Unresolved(audit, row)
  {
    if rows != [] {
      AmongIff(rows[1..], audit, row);
    }
  }

  lemma OneAmong(row: AuditRow, audit: seq<AuditRow>)
    ensures UnresolvedAmong([row], audit) == if Unresolved(audit, row) then [row] else []
  {
    assert [row][1..] == [];
  }

  /** Orphans stand in the backlog in the order they stand in the log, each as often as it does there. */
  lemma BacklogInOrder(before: seq<AuditRow>, row: AuditRow, after: seq<AuditRow>, audit: seq<AuditRow>)
    requires audit == before + [row] + after
    ensures Backlog(audit)
      == UnresolvedAmong(before, audit) + (if Unresolved(audit, row) then [row] else []) + UnresolvedAmong(after, audit)
  {
    AmongConcat(before + [row], after, audit);
    AmongConcat(before, [row], audit);
    OneAmong(row, audit);
  }

  /**
  What ends a sweep: a `begin` that throws, a refused deletion that cannot be rolled back,
  the reading of the orphans, or the count.
  */
  lemma FinishesIff(page: seq<DueRow>, at: Instant, storage: bool, answers: SweepAnswers, calls: Calls)
    ensures Finishes(page, at, storage, answers, calls) <==>
      && (forall k: nat | k < |DueForDeletion(page, at)| :: calls.begins(k) && (answers.deletes(k) || calls.rollsBack(k)))
      && (storage ==> calls.readsOrphans) && calls.counts
  {
  }

  /**
  The whole sweep is the two passes: with a store, the second asks for the first `limit`
  of what the first left unresolved, oldest first; what is outstanding is counted after
  them, over the whole log.
  */
  lemma SweepIsTwoPasses(t: Tables, page: seq<DueRow>, at: Instant, limit: nat, storage: bool, answers: SweepAnswers,
                         calls: Calls)
    requires Finishes(page, at, storage, answers, calls)
    ensures
      var first := DeleteFrom(Progress(t, NOTHING_YET), DueForDeletion(page, at), 0, storage, answers);
      var backlog := Backlog(first.tables.audit);
      var asked := if !storage then [] else if |backlog| <= limit then backlog else backlog[..limit];
      var r, second := SweptUntil(t, page, at, limit, storage, answers, calls), RetryFrom(first, asked, 0, answers);
      && r.tables == second.tables
      && r.tally.artefactsOutstanding == |Backlog(r.tables.audit)|
      && r.tally.evidenceDeleted == second.tally.evidenceDeleted && r.tally.artefactsOrphaned == second.tally.artefactsOrphaned
      && r.tally.artefactsRecovered == second.tally.artefactsRecovered
      && r.tally.artefactsUnreadable == second.tally.artefactsUnreadable
  {
    FinishedIsSwept(t, page, at, limit, storage, answers, calls);
  }

  /** A sweep that is ended has done the rows before the call that ended it, and both passes if only the count did. */
  lemma EndedSweep(t: Tables, page: seq<DueRow>, at: Instant, limit: nat, storage: bool, answers: SweepAnswers,
                   calls: Calls, n: nat)
    requires n <= |DueForDeletion(page, at)|
    requires forall k: nat | k < n :: calls.begins(k) && (answers.deletes(k) || calls.rollsBack(k))
    ensures
      var rows := DueForDeletion(page, at);
      var first := DeleteFrom(Progress(t, NOTHING_YET), rows[..n], 0, storage, answers);
      var r := SweptUntil(t, page, at, limit, storage, answers, calls);
      && (n < |rows| && !(calls.begins(n) && (answers.deletes(n) || calls.rollsBack(n))) ==> r == first)
      && (n == |rows| && storage && !calls.readsOrphans ==> r == first)
      && (n == |rows| && (storage ==> calls.readsOrphans) && !calls.counts ==>
            r == if storage then Retried(first, limit, answers) else first)
  {
    ReachesExactly(|DueForDeletion(page, at)|, answers, calls, n, 0);
  }

  lemma {:induction false} ReachesExactly(all: nat, answers: SweepAnswers, calls: Calls, n: nat, i: nat)
    requires i <= n <= all && forall k: nat | k < n :: calls.begins(k) && (answers.deletes(k) || calls.rollsBack(k))
    ensures n == all || !(calls.begins(n) && (answers.deletes(n) || calls.rollsBack(n))) ==> Reach(i, all, answers, calls) == n
    decreases n - i
  {
    if i < n {
      ReachesExactly(all, answers, calls, n, i + 1);
    }
  }
}
