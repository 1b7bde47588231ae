/**
The retention sweep: rows past their deadline go, with a record kept of each; the
bytes follow; and bytes that will not go are put on record and asked for again.
*/
module RetentionSweep {
  import opened Options
  import opened Counting
  import opened OrphanAudit
  import opened EvidenceStore

  /** One row of the sweep's page, as the query read it. */
  datatype DueRow = DueRow(id: EvidenceId, sha256: nat, retentionUntil: Instant, path: Path)

  /** What the database and the object store answer, call by call. */
  datatype SweepAnswers = SweepAnswers(
    deletes: nat -> bool,
    removes: nat -> bool,
    records: nat -> bool,
    removesLater: nat -> bool,
    recordsLater: nat -> bool)

  /** The calls that have no handler of their own: where one throws, the sweep ends. */
  datatype Calls = Calls(begins: nat -> bool, rollsBack: nat -> bool, readsOrphans: bool, counts: bool)

  datatype Tally = Tally(
    evidenceDeleted: nat,
    artefactsOrphaned: nat,
    artefactsRecovered: nat,
    artefactsOutstanding: nat,
    artefactsUnreadable: nat)

  const NOTHING_YET := Tally(0, 0, 0, 0, 0)

  datatype Progress = Progress(tables: Tables, tally: Tally)

  /** Strictly past the deadline, not on it. */
  function DueForDeletion(page: seq<DueRow>, at: Instant): (r: seq<DueRow>)
    ensures forall row :: row in r <==> row in page && row.retentionUntil < at
  {
    if page == [] then []
    else (if page[0].retentionUntil < at then [page[0]] else []) + DueForDeletion(page[1..], at)
  }

  // ----- the first pass -----------------------------------------------------

  /** The deletion's record and the deletion are one transaction; its join rows go with the row. */
  function RowGone(t: Tables, row: DueRow): Tables {
    t.(deletions := t.deletions + [Deletion(row.id, row.sha256, row.retentionUntil)],
       evidence := t.evidence - {row.id},
       links := set link | link in t.links && link.evidence != row.id)
  }

  function DeleteOne(p: Progress, row: DueRow, i: nat, storage: bool, answers: SweepAnswers): Progress {
    if !answers.deletes(i) then p
    else
      var t := RowGone(p.tables, row);
      if !storage then Progress(t, p.tally.(evidenceDeleted := p.tally.evidenceDeleted + 1))
      else if answers.removes(i) then
        Progress(t.(store := t.store - {row.path}), p.tally.(evidenceDeleted := p.tally.evidenceDeleted + 1))
      else
        Progress(if answers.records(i) then t.(audit := t.audit + [Orphaned(Some(row.id), row.path)]) else t,
                 p.tally.(artefactsOrphaned := p.tally.artefactsOrphaned + 1))
  }

  function DeleteFrom(p: Progress, rows: seq<DueRow>, i: nat, storage: bool, answers: SweepAnswers): Progress
    requires i <= |rows|
    decreases |rows| - i
  {
    if i == |rows| then p
    else DeleteFrom(DeleteOne(p, rows[i], i, storage, answers), rows, i + 1, storage, answers)
  }

  // ----- the second pass ----------------------------------------------------

  function RetryOne(p: Progress, orphan: AuditRow, i: nat, answers: SweepAnswers): Progress {
    if !orphan.Orphaned? then p.(tally := p.tally.(artefactsUnreadable := p.tally.artefactsUnreadable + 1))
    else if !answers.removesLater(i) then p
    else
      var t := p.tables.(store := p.tables.store - {orphan.path});
      if answers.recordsLater(i) then
        Progress(t.(audit := t.audit + [RemovedLater(orphan.entity, orphan.path)]),
                 p.tally.(artefactsRecovered := p.tally.artefactsRecovered + 1))
      else Progress(t, p.tally)
  }

  function RetryFrom(p: Progress, orphans: seq<AuditRow>, i: nat, answers: SweepAnswers): Progress
    requires i <= |orphans|
    decreases |orphans| - i
  {
    if i == |orphans| then p
    else RetryFrom(RetryOne(p, orphans[i], i, answers), orphans, i + 1, answers)
  }

  function FirstOf<T>(s: seq<T>, limit: nat): (r: seq<T>)
    ensures r <= s && (|r| == |s| <= limit || |r| == limit < |s|)
  {
    if |s| <= limit then s else s[..limit]
  }

  function Retried(p: Progress, limit: nat, answers: SweepAnswers): Progress {
    RetryFrom(p, FirstOf(Backlog(p.tables.audit), limit), 0, answers)
  }

  function Counted(p: Progress): Progress {
    p.(tally := p.tally.(artefactsOutstanding := |Backlog(p.tables.audit)|))
  }

  function Swept(t: Tables, page: seq<DueRow>, at: Instant, limit: nat, storage: bool,
                 answers: SweepAnswers): Progress {
    var deleted := DeleteFrom(Progress(t, NOTHING_YET), DueForDeletion(page, at), 0, storage, answers);
    Counted(if storage then Retried(deleted, limit, answers) else deleted)
  }

  // ----- where a sweep ends -------------------------------------------------

  predicate StopsAt(i: nat, answers: SweepAnswers, calls: Calls) {
    !calls.begins(i) || (!answers.deletes(i) && !calls.rollsBack(i))
  }

  /** How many rows the first pass gets through. */
  function Reach(i: nat, n: nat, answers: SweepAnswers, calls: Calls): (m: nat)
    requires i <= n
    ensures i <= m <= n
    ensures forall k | i <= k < m :: calls.begins(k) && (answers.deletes(k) || calls.rollsBack(k))
    ensures m < n ==> !calls.begins(m) || (!answers.deletes(m) && !calls.rollsBack(m))
    decreases n - i
  {
    if i == n || StopsAt(i, answers, calls) then i else Reach(i + 1, n, answers, calls)
  }

  predicate Finishes(page: seq<DueRow>, at: Instant, storage: bool, answers: SweepAnswers, calls: Calls) {
    var rows := DueForDeletion(page, at);
    Reach(0, |rows|, answers, calls) == |rows| && (storage ==> calls.readsOrphans) && calls.counts
  }

  /** The sweep as far as it gets. */
  function SweptUntil(t: Tables, page: seq<DueRow>, at: Instant, limit: nat, storage: bool, answers: SweepAnswers,
                      calls: Calls): Progress
  {
    var rows := DueForDeletion(page, at);
    var reached := Reach(0, |rows|, answers, calls);
    var deleted := DeleteFrom(Progress(t, NOTHING_YET), rows[..reached], 0, storage, answers);
    if reached < |rows| || (storage && !calls.readsOrphans) then deleted
    else
      var retried := if storage then Retried(deleted, limit, answers) else deleted;
      if calls.counts then Counted(retried) else retried
  }

  /** A sweep that no such call ends is the whole sweep. */
  lemma FinishedIsSwept(t: Tables, page: seq<DueRow>, at: Instant, limit: nat, storage: bool, answers: SweepAnswers,
                        calls: Calls)
    requires Finishes(page, at, storage, answers, calls)
    ensures SweptUntil(t, page, at, limit, storage, answers, calls) == Swept(t, page, at, limit, storage, answers)
  {
    var rows := DueForDeletion(page, at);
    assert rows[..|rows|] == rows;
  }

  method SweepRetention(tables: EvidenceTables, page: seq<DueRow>, at: Instant, limit: nat, storage: bool,
                        answers: SweepAnswers, calls: Calls)
    returns (tally: Tally, threw: bool)
    modifies tables
    ensures Progress(tables.Value(), tally) == SweptUntil(old(tables.Value()), page, at, limit, storage, answers, calls)
    ensures threw <==> !Finishes(page, at, storage, answers, calls)
  {
    var records := DueForDeletion(page, at);
    tally, threw := DeleteDue(tables, records, storage, answers, calls);
    if threw {
      return;
    }
    if storage {
      if !calls.readsOrphans {
        return tally, true;
      }
      var orphans := FirstOf(Backlog(tables.audit), limit);
      tally := RetryOrphans(tables, orphans, answers, tally);
    }
    if !calls.counts {
      return tally, true;
    }
    tally := tally.(artefactsOutstanding := |Backlog(tables.audit)|);
  }

  method DeleteDue(tables: EvidenceTables, records: seq<DueRow>, storage: bool, answers: SweepAnswers, calls: Calls)
    returns (tally: Tally, threw: bool)
    modifies tables
    ensures var reached := Reach(0, |records|, answers, calls);
      && Progress(tables.Value(), tally)
           == DeleteFrom(Progress(old(tables.Value()), NOTHING_YET), records[..reached], 0, storage, answers)
      && (threw <==> reached < |records|)
  {
    tally, threw := NOTHING_YET, false;
    ghost var reached := Reach(0, |records|, answers, calls);
    for i := 0 to |records|
      invariant i <= reached
      invariant DeleteFrom(Progress(tables.Value(), tally), records[..reached], i, storage, answers)
             == DeleteFrom(Progress(old(tables.Value()), NOTHING_YET), records[..reached], 0, storage, answers)
    {
      assert i < reached ==> !StopsAt(i, answers, calls);
      if !calls.begins(i) {
        return tally, true;
      }
      if !answers.deletes(i) {
        if !calls.rollsBack(i) {
          return tally, true;
        }
      }
      var record := records[i];
      if answers.deletes(i) {
        tables.deletions := tables.deletions + [Deletion(record.id, record.sha256, record.retentionUntil)];
        tables.evidence := tables.evidence - {record.id};
        tables.links := set link | link in tables.links && link.evidence != record.id;
        if storage {
          if answers.removes(i) {
            tables.store := tables.store - {record.path};
            tally := tally.(evidenceDeleted := tally.evidenceDeleted + 1);
          } else {
            tally := tally.(artefactsOrphaned := tally.artefactsOrphaned + 1);
            if answers.records(i) {
              tables.audit := tables.audit + [Orphaned(Some(record.id), record.path)];
            }
          }
        } else {
          tally := tally.(evidenceDeleted := tally.evidenceDeleted + 1);
        }
      }
    }
  }

  method RetryOrphans(tables: EvidenceTables, orphans: seq<AuditRow>, answers: SweepAnswers, before: Tally)
    returns (tally: Tally)
    modifies tables`store, tables`audit
    ensures Progress(tables.Value(), tally) == RetryFrom(Progress(old(tables.Value()), before), orphans, 0, answers)
  {
    tally := before;
    for i := 0 to |orphans|
      invariant RetryFrom(Progress(tables.Value(), tally), orphans, i, answers)
             == RetryFrom(Progress(old(tables.Value()), before), orphans, 0, answers)
    {
      var orphan := orphans[i];
      if !orphan.Orphaned? {
        tally := tally.(artefactsUnreadable := tally.artefactsUnreadable + 1);
      } else if answers.removesLater(i) {
        tables.store := tables.store - {orphan.path};
        if answers.recordsLater(i) {
          tables.audit := tables.audit + [RemovedLater(orphan.entity, orphan.path)];
          tally := tally.(artefactsRecovered := tally.artefactsRecovered + 1);
        }
      }
    }
  }

  // ----- what the first pass does -------------------------------------------

  function GoneAt(row: DueRow, i: nat, answers: SweepAnswers): seq<DueRow> {
    if answers.deletes(i) then [row] else []
  }

  function Gone(rows: seq<DueRow>, i: nat, answers: SweepAnswers): seq<DueRow>
    requires i <= |rows|
    decreases |rows| - i
  {
    if i == |rows| then [] else GoneAt(rows[i], i, answers) + Gone(rows, i + 1, answers)
  }

  function DeletionsOf(rows: seq<DueRow>): (r: seq<Deletion>)
    ensures |r| == |rows|
    ensures forall k | 0 <= k < |r| :: r[k] == Deletion(rows[k].id, rows[k].sha256, rows[k].retentionUntil)
  {
    seq(|rows|, k requires 0 <= k < |rows| => Deletion(rows[k].id, rows[k].sha256, rows[k].retentionUntil))
  }

  function Ids(rows: seq<DueRow>): set<EvidenceId> {
    set row | row in rows :: row.id
  }

  /** The row's bytes stayed, and that was written down. */
  function NewOrphanAt(row: DueRow, i: nat, storage: bool, answers: SweepAnswers): seq<AuditRow> {
    if storage && answers.deletes(i) && !answers.removes(i) && answers.records(i) then [Orphaned(Some(row.id), row.path)] else []
  }

  function NewOrphans(rows: seq<DueRow>, i: nat, storage: bool, answers: SweepAnswers): (r: seq<AuditRow>)
    requires i <= |rows|
    ensures forall row | row in r :: exists k | i <= k < |rows| :: row == Orphaned(Some(rows[k].id), rows[k].path)
    decreases |rows| - i
  {
    if i == |rows| then []
    else NewOrphanAt(rows[i], i, storage, answers) + NewOrphans(rows, i + 1, storage, answers)
  }

  /** From one state of the tables to another: these rows gone, each on record, and these orphans logged. */
  predicate Leaves(t: Tables, u: Tables, gone: seq<DueRow>, orphans: seq<AuditRow>) {
    && u.deletions == t.deletions + DeletionsOf(gone)
    && u.evidence == t.evidence - Ids(gone)
    && u.links == LinksWithout(t.links, Ids(gone))
    && u.audit == t.audit + orphans
  }

  function LinksWithout(links: set<Link>, ids: set<EvidenceId>): set<Link> {
    set link | link in links && link.evidence !in ids
  }

  lemma LeavesNothing(t: Tables)
    ensures Leaves(t, t, [], [])
  {
    assert DeletionsOf([]) == [] && Ids([]) == {};
    assert LinksWithout(t.links, {}) == t.links;
  }

  lemma OneLeaves(p: Progress, row: DueRow, i: nat, storage: bool, answers: SweepAnswers)
    ensures Leaves(p.tables, DeleteOne(p, row, i, storage, answers).tables,
                   GoneAt(row, i, answers), NewOrphanAt(row, i, storage, answers))
  {
    LeavesNothing(p.tables);
    assert Ids([row]) == {row.id};
    assert DeletionsOf([row]) == [Deletion(row.id, row.sha256, row.retentionUntil)];
  }

  lemma LeavesChain(t: Tables, u: Tables, v: Tables, first: seq<DueRow>, rest: seq<DueRow>, logged: seq<AuditRow>,
                    more: seq<AuditRow>)
    requires Leaves(t, u, first, logged) && Leaves(u, v, rest, more)
    ensures Leaves(t, v, first + rest, logged + more)
  {
    assert DeletionsOf(first + rest) == DeletionsOf(first) + DeletionsOf(rest);
    assert Ids(first + rest) == Ids(first) + Ids(rest);
    assert t.evidence - Ids(first) - Ids(rest) == t.evidence - Ids(first + rest);
    assert LinksWithout(LinksWithout(t.links, Ids(first)), Ids(rest)) == LinksWithout(t.links, Ids(first + rest));
  }

  /**
  Every row that goes has its own deletion record, in order, no other row goes, and the log gains
  the recorded orphans.
  */
  lemma {:induction false} DeletionsAreRecorded(p: Progress, rows: seq<DueRow>, i: nat, storage: bool,
                                                answers: SweepAnswers)
    requires i <= |rows|
    ensures Leaves(p.tables, DeleteFrom(p, rows, i, storage, answers).tables,
                   Gone(rows, i, answers), NewOrphans(rows, i, storage, answers))
    decreases |rows| - i
  {
    if i == |rows| {
      LeavesNothing(p.tables);
    } else {
      var q := DeleteOne(p, rows[i], i, storage, answers);
      OneLeaves(p, rows[i], i, storage, answers);
      DeletionsAreRecorded(q, rows, i + 1, storage, answers);
      LeavesChain(p.tables, q.tables, DeleteFrom(q, rows, i + 1, storage, answers).tables,
                  GoneAt(rows[i], i, answers), Gone(rows, i + 1, answers),
                  NewOrphanAt(rows[i], i, storage, answers), NewOrphans(rows, i + 1, storage, answers));
    }
  }

  /** The row went and its bytes did not. */
  function Refused(storage: bool, answers: SweepAnswers): nat -> bool {
    (k: nat) => answers.deletes(k) && storage && !answers.removes(k)
  }

  function Cleared(storage: bool, answers: SweepAnswers): nat -> bool {
    (k: nat) => answers.deletes(k) && (!storage || answers.removes(k))
  }

  /**
  A row that goes is counted once, as deleted or as orphaned, and an orphan is counted whether or
  not it is recorded.
  */
  lemma {:induction false} DeletionsAreCounted(p: Progress, rows: seq<DueRow>, i: nat, storage: bool,
                                               answers: SweepAnswers)
    requires i <= |rows|
    ensures var r := DeleteFrom(p, rows, i, storage, answers).tally;
      && r.evidenceDeleted == p.tally.evidenceDeleted + Number(Cleared(storage, answers), i, |rows|)
      && r.artefactsOrphaned == p.tally.artefactsOrphaned + Number(Refused(storage, answers), i, |rows|)
      && r == p.tally.(evidenceDeleted := r.evidenceDeleted, artefactsOrphaned := r.artefactsOrphaned)
    decreases |rows| - i
  {
    if i < |rows| {
      DeletionsAreCounted(DeleteOne(p, rows[i], i, storage, answers), rows, i + 1, storage, answers);
    }
  }

  /**
  Deleted and orphaned are the rows that went; recorded orphans are at most the orphans, and all of
  them if no record is refused.
  */
  lemma {:induction false} CountsMatchRows(rows: seq<DueRow>, i: nat, storage: bool, answers: SweepAnswers)
    requires i <= |rows|
    ensures Number(Cleared(storage, answers), i, |rows|) + Number(Refused(storage, answers), i, |rows|) == |Gone(rows, i, answers)|
    ensures |NewOrphans(rows, i, storage, answers)| <= Number(Refused(storage, answers), i, |rows|)
    ensures (forall k | i <= k < |rows| :: answers.records(k)) ==>
      |NewOrphans(rows, i, storage, answers)| == Number(Refused(storage, answers), i, |rows|)
    decreases |rows| - i
  {
    if i < |rows| {
      CountsMatchRows(rows, i + 1, storage, answers);
    }
  }

  /** Bytes go exactly where a row went and its removal worked. */
  lemma {:induction false} BytesGoWithTheirRow(p: Progress, rows: seq<DueRow>, i: nat, storage: bool,
                                               answers: SweepAnswers, at: Path)
    requires i <= |rows|
    ensures at in DeleteFrom(p, rows, i, storage, answers).tables.store <==>
      at in p.tables.store && forall k | i <= k < |rows| && rows[k].path == at :: !(answers.deletes(k) && storage && answers.removes(k))
    decreases |rows| - i
  {
    if i < |rows| {
      BytesGoWithTheirRow(DeleteOne(p, rows[i], i, storage, answers), rows, i + 1, storage, answers, at);
    }
  }

  lemma {:induction false} RefusalIsRecorded(rows: seq<DueRow>, i: nat, k: nat, answers: SweepAnswers)
    requires i <= k < |rows| && answers.deletes(k) && !answers.removes(k) && answers.records(k)
    ensures Orphaned(Some(rows[k].id), rows[k].path) in NewOrphans(rows, i, true, answers)
    decreases k - i
  {
    if i < k {
      RefusalIsRecorded(rows, i + 1, k, answers);
    }
  }

  /** A deleted row's bytes are gone when the first pass ends, or on record, or that record was refused. */
  lemma BytesFollowTheirRow(p: Progress, rows: seq<DueRow>, k: nat, answers: SweepAnswers)
    requires k < |rows| && answers.deletes(k)
    ensures var t := DeleteFrom(p, rows, 0, true, answers).tables;
      rows[k].path !in t.store || Orphaned(Some(rows[k].id), rows[k].path) in t.audit || (!answers.removes(k) && !answers.records(k))
  {
    BytesGoWithTheirRow(p, rows, 0, true, answers, rows[k].path);
    DeletionsAreRecorded(p, rows, 0, true, answers);
    if !answers.removes(k) && answers.records(k) {
      RefusalIsRecorded(rows, 0, k, answers);
    }
  }

  // ----- what the second pass does ------------------------------------------

  predicate Recovered(orphans: seq<AuditRow>, k: nat, answers: SweepAnswers) {
    k < |orphans| && orphans[k].Orphaned? && answers.removesLater(k) && answers.recordsLater(k)
  }

  function Recoveries(orphans: seq<AuditRow>, i: nat, answers: SweepAnswers): (r: seq<AuditRow>)
    requires i <= |orphans|
    ensures forall row | row in r :: row.RemovedLater?
    ensures forall k | i <= k < |orphans| && Recovered(orphans, k, answers) ::
      RemovedLater(orphans[k].entity, orphans[k].path) in r
    decreases |orphans| - i
  {
    if i == |orphans| then []
    else
      (if Recovered(orphans, i, answers) then [RemovedLater(orphans[i].entity, orphans[i].path)] else [])
      + Recoveries(orphans, i + 1, answers)
  }

  lemma {:induction false} RetriesAreCounted(p: Progress, orphans: seq<AuditRow>, i: nat, answers: SweepAnswers)
    requires i <= |orphans|
    ensures var r := RetryFrom(p, orphans, i, answers);
      && r.tables.audit == p.tables.audit + Recoveries(orphans, i, answers)
      && r.tally.artefactsRecovered == p.tally.artefactsRecovered + |Recoveries(orphans, i, answers)|
      && r.tables.evidence == p.tables.evidence && r.tables.links == p.tables.links
      && r.tables.deletions == p.tables.deletions
      && r.tally.artefactsUnreadable == p.tally.artefactsUnreadable + Number(Illegible(orphans), i, |orphans|)
      && r.tally == p.tally.(artefactsRecovered := r.tally.artefactsRecovered, artefactsUnreadable := r.tally.artefactsUnreadable)
    decreases |orphans| - i
  {
    if i < |orphans| {
      RetriesAreCounted(RetryOne(p, orphans[i], i, answers), orphans, i + 1, answers);
    }
  }

  function Illegible(orphans: seq<AuditRow>): nat -> bool {
    (k: nat) => k < |orphans| && !orphans[k].Orphaned?
  }

  /** The retry pass removes exactly the bytes the store now gives up, recorded or not, and no others. */
  lemma {:induction false} RetriesRemove(p: Progress, orphans: seq<AuditRow>, i: nat, answers: SweepAnswers, at: Path)
    requires i <= |orphans|
    ensures at in RetryFrom(p, orphans, i, answers).tables.store <==>
      at in p.tables.store && forall k | i <= k < |orphans| && orphans[k].Orphaned? && orphans[k].path == at :: !answers.removesLater(k)
    decreases |orphans| - i
  {
    if i < |orphans| {
      RetriesRemove(RetryOne(p, orphans[i], i, answers), orphans, i + 1, answers, at);
    }
  }

  /** So a recovery is never claimed for bytes that are still held. */
  lemma RecoveredBytesAreGone(p: Progress, orphans: seq<AuditRow>, k: nat, answers: SweepAnswers)
    requires Recovered(orphans, k, answers)
    ensures orphans[k].path !in RetryFrom(p, orphans, 0, answers).tables.store
  {
    RetriesRemove(p, orphans, 0, answers, orphans[k].path);
  }

  // ----- the outstanding count ----------------------------------------------

  function Trues(flags: seq<bool>): nat {
    if flags == [] then 0 else (if flags[0] then 1 else 0) + Trues(flags[1..])
  }

  function Matches(rows: seq<AuditRow>, recoveries: seq<AuditRow>): (r: seq<bool>)
    ensures |r| == |rows| && forall k | 0 <= k < |r| :: r[k] == ResolvedBy(recoveries, rows[k])
  {
    if rows == [] then [] else [ResolvedBy(recoveries, rows[0])] + Matches(rows[1..], recoveries)
  }

  function Marks(orphans: seq<AuditRow>, i: nat, n: nat, answers: SweepAnswers): (r: seq<bool>)
    requires i <= n
    ensures |r| == n - i && forall k | 0 <= k < |r| :: r[k] == Recovered(orphans, i + k, answers)
    decreases n - i
  {
    if i == n then [] else [Recovered(orphans, i, answers)] + Marks(orphans, i + 1, n, answers)
  }

  lemma {:induction false} UnmatchedAreTheRest(rows: seq<AuditRow>, recoveries: seq<AuditRow>)
    ensures |Unmatched(rows, recoveries)| + Trues(Matches(rows, recoveries)) == |rows|
  {
    if rows != [] {
      UnmatchedAreTheRest(rows[1..], recoveries);
      assert Matches(rows, recoveries)[1..] == Matches(rows[1..], recoveries);
    }
  }

  lemma {:induction false} MarksCountRecoveries(orphans: seq<AuditRow>, i: nat, n: nat, answers: SweepAnswers)
    requires i <= n && |orphans| <= n
    ensures Trues(Marks(orphans, i, n, answers)) == if i <= |orphans| then |Recoveries(orphans, i, answers)| else 0
    decreases n - i
  {
    if i < n {
      MarksCountRecoveries(orphans, i + 1, n, answers);
      assert Marks(orphans, i, n, answers)[1..] == Marks(orphans, i + 1, n, answers);
    }
  }

  /** Of two rows of flags, one implying the other, the counts agree only where the flags do. */
  lemma {:induction false} TruesAgree(less: seq<bool>, more: seq<bool>)
    requires |less| == |more| && forall k | 0 <= k < |less| && less[k] :: more[k]
    ensures Trues(less) <= Trues(more)
    ensures Trues(less) == Trues(more) <==> forall k | 0 <= k < |more| && more[k] :: less[k]
  {
    if less != [] {
      TruesAgree(less[1..], more[1..]);
      if forall k | 0 <= k < |more| && more[k] :: less[k] {
        assert more[0] ==> less[0];
      } else {
        var k :| 0 <= k < |more| && more[k] && !less[k];
        if k > 0 {
          assert more[1..][k - 1] && !less[1..][k - 1];
        }
      }
      if forall k | 0 <= k < |more[1..]| && more[1..][k] :: less[1..][k] {
        forall k | 0 < k < |more| && more[k] ensures less[k] {
          assert more[1..][k - 1] ==> less[1..][k - 1];
        }
      }
    }
  }

  /** No recovery of another sweep has already spoken for a row that is still in the table. */
  predicate NeverRecovered(audit: seq<AuditRow>, rows: seq<DueRow>) {
    forall k | 0 <= k < |rows| :: Unresolved(audit, Orphaned(Some(rows[k].id), rows[k].path))
  }

  /**
  For one sweep's answers, the outstanding count balances, before plus newly recorded
  equals after plus recovered, exactly when every orphan a recovery resolves was itself
  one of those recovered.
  */
  lemma OutstandingBalancesIff(t: Tables, page: seq<DueRow>, at: Instant, limit: nat, answers: SweepAnswers)
    requires NeverRecovered(t.audit, DueForDeletion(page, at))
    ensures
      var r := Swept(t, page, at, limit, true, answers);
      var added := NewOrphans(DueForDeletion(page, at), 0, true, answers);
      var backlog := Backlog(t.audit) + added;
      var asked := FirstOf(backlog, limit);
      && r.tally.artefactsOutstanding == |Backlog(r.tables.audit)|
      && r.tally.artefactsOutstanding + r.tally.artefactsRecovered <= |Backlog(t.audit)| + |added|
      && (r.tally.artefactsOutstanding + r.tally.artefactsRecovered == |Backlog(t.audit)| + |added| <==>
          forall k | 0 <= k < |backlog| && ResolvedBy(Recoveries(asked, 0, answers), backlog[k]) :: Recovered(asked, k, answers))
  {
    var rows := DueForDeletion(page, at);
    var start := Progress(t, NOTHING_YET);
    var added := NewOrphans(rows, 0, true, answers);
    DeletionsAreRecorded(start, rows, 0, true, answers);
    DeletionsAreCounted(start, rows, 0, true, answers);
    OrphansJoin(t.audit, added);
    var p := DeleteFrom(start, rows, 0, true, answers);
    var backlog := Backlog(p.tables.audit);
    var asked := FirstOf(backlog, limit);
    var recoveries := Recoveries(asked, 0, answers);
    RetriesAreCounted(p, asked, 0, answers);
    RecoveriesTakeOut(p.tables.audit, recoveries);
    RecoveredAreMatched(backlog, asked, recoveries, answers);
  }

  lemma RecoveredAreMatched(backlog: seq<AuditRow>, asked: seq<AuditRow>, recoveries: seq<AuditRow>,
                            answers: SweepAnswers)
    requires asked <= backlog && recoveries == Recoveries(asked, 0, answers)
    ensures |Unmatched(backlog, recoveries)| + |recoveries| <= |backlog|
    ensures |Unmatched(backlog, recoveries)| + |recoveries| == |backlog| <==>
      forall k | 0 <= k < |backlog| && ResolvedBy(recoveries, backlog[k]) :: Recovered(asked, k, answers)
  {
    var matched, marked := Matches(backlog, recoveries), Marks(asked, 0, |backlog|, answers);
    UnmatchedAreTheRest(backlog, recoveries);
    MarksCountRecoveries(asked, 0, |backlog|, answers);
    forall k | 0 <= k < |marked| && marked[k] ensures matched[k] {
      assert asked[k] == backlog[k];
      assert Resolves(RemovedLater(asked[k].entity, asked[k].path), backlog[k]);
    }
    TruesAgree(marked, matched);
  }

  // ----- what a sweep promises ----------------------------------------------

  /** The page was read from the table: each row is there, once. */
  predicate PageFits(t: Tables, rows: seq<DueRow>, i: nat) {
    && (forall k | i <= k < |rows| :: rows[k].id in t.evidence && t.evidence[rows[k].id].path == rows[k].path)
    && (forall k, l | i <= k < l < |rows| :: rows[k].id != rows[l].id)
  }

  lemma DeleteOneKeepsSound(p: Progress, rows: seq<DueRow>, i: nat, storage: bool, answers: SweepAnswers)
    requires i < |rows| && Sound(p.tables) && PageFits(p.tables, rows, i)
    ensures var q := DeleteOne(p, rows[i], i, storage, answers);
      Sound(q.tables) && PageFits(q.tables, rows, i + 1)
  {
    var t, row := p.tables, rows[i];
    var u := RowGone(t, row);
    assert forall k | i < k < |rows| :: rows[k].id != row.id;
    assert forall id | id in u.evidence :: id in t.evidence && id != row.id && t.evidence[id].path != row.path;
    assert Sound(u);
  }

  lemma {:induction false} DeletesKeepSound(p: Progress, rows: seq<DueRow>, i: nat, storage: bool,
                                            answers: SweepAnswers)
    requires i <= |rows| && Sound(p.tables) && PageFits(p.tables, rows, i)
    ensures Sound(DeleteFrom(p, rows, i, storage, answers).tables)
    decreases |rows| - i
  {
    if i < |rows| {
      DeleteOneKeepsSound(p, rows, i, storage, answers);
      DeletesKeepSound(DeleteOne(p, rows[i], i, storage, answers), rows, i + 1, storage, answers);
    }
  }

  predicate OnLog(t: Tables, orphans: seq<AuditRow>) {
    forall k | 0 <= k < |orphans| :: orphans[k] in t.audit
  }

  lemma RetryOneKeepsSound(p: Progress, orphan: AuditRow, i: nat, answers: SweepAnswers)
    requires Sound(p.tables) && orphan in p.tables.audit
    ensures Sound(RetryOne(p, orphan, i, answers).tables)
  {
    var t := p.tables;
    var k :| 0 <= k < |t.audit| && t.audit[k] == orphan;
    assert forall id | id in t.evidence :: NotNamed(t.audit[k], id, t.evidence[id].path);
  }

  lemma {:induction false} RetriesKeepSound(p: Progress, orphans: seq<AuditRow>, i: nat, answers: SweepAnswers)
    requires i <= |orphans| && Sound(p.tables) && OnLog(p.tables, orphans)
    ensures Sound(RetryFrom(p, orphans, i, answers).tables)
    decreases |orphans| - i
  {
    if i < |orphans| {
      var q := RetryOne(p, orphans[i], i, answers);
      RetryOneKeepsSound(p, orphans[i], i, answers);
      assert OnLog(q.tables, orphans) by {
        assert forall row | row in p.tables.audit :: row in q.tables.audit;
      }
      RetriesKeepSound(q, orphans, i + 1, answers);
    }
  }

  lemma PageStillFits(t: Tables, page: seq<DueRow>, at: Instant)
    requires PageFits(t, page, 0)
    ensures PageFits(t, DueForDeletion(page, at), 0)
    decreases page
  {
    if page != [] {
      assert forall k | 0 <= k < |page[1..]| :: page[1..][k] == page[k + 1];
      PageStillFits(t, page[1..], at);
      var rest := DueForDeletion(page[1..], at);
      assert forall k | 0 <= k < |rest| :: rest[k] in page[1..];
    }
  }

  /** After any sweep, whatever refuses and wherever it ends: rows left have their bytes, and the log names none of them. */
  lemma SweepKeepsSound(t: Tables, page: seq<DueRow>, at: Instant, limit: nat, storage: bool, answers: SweepAnswers,
                        calls: Calls)
    requires Sound(t) && PageFits(t, page, 0)
    ensures Sound(SweptUntil(t, page, at, limit, storage, answers, calls).tables)
  {
    var due := DueForDeletion(page, at);
    var rows := due[..Reach(0, |due|, answers, calls)];
    PageStillFits(t, page, at);
    DeletesKeepSound(Progress(t, NOTHING_YET), rows, 0, storage, answers);
    var p := DeleteFrom(Progress(t, NOTHING_YET), rows, 0, storage, answers);
    RetriesKeepSound(p, FirstOf(Backlog(p.tables.audit), limit), 0, answers);
  }

  /** A sound log has never recovered a row that is still there, which is what the outstanding count relies on. */
  lemma SoundMeansNeverRecovered(t: Tables, page: seq<DueRow>, at: Instant)
    requires Sound(t) && PageFits(t, page, 0)
    ensures NeverRecovered(t.audit, DueForDeletion(page, at))
  {
    var rows := DueForDeletion(page, at);
    PageStillFits(t, page, at);
    forall k | 0 <= k < |rows| ensures Unresolved(t.audit, Orphaned(Some(rows[k].id), rows[k].path)) {
      forall later | later in t.audit ensures !Resolves(later, Orphaned(Some(rows[k].id), rows[k].path)) {
        var l :| 0 <= l < |t.audit| && t.audit[l] == later;
        assert NotNamed(t.audit[l], rows[k].id, t.evidence[rows[k].id].path);
      }
    }
  }

  // ----- when the outstanding count balances --------------------------------

  /** Before plus newly recorded equals after plus recovered. */
  predicate Balances(t: Tables, page: seq<DueRow>, at: Instant, limit: nat, answers: SweepAnswers) {
    var tally := Swept(t, page, at, limit, true, answers).tally;
    tally.artefactsOutstanding + tally.artefactsRecovered
      == |Backlog(t.audit)| + |NewOrphans(DueForDeletion(page, at), 0, true, answers)|
  }

  ghost predicate AlwaysBalances(t: Tables, page: seq<DueRow>, at: Instant, limit: nat) {
    forall answers: SweepAnswers :: Balances(t, page, at, limit, answers)
  }

  function RecoveryOf(orphan: AuditRow): AuditRow
    requires orphan.Orphaned?
  {
    RemovedLater(orphan.entity, orphan.path)
  }

  /** No readable orphan the retry pass will ask about speaks for another one as well. */
  predicate OneEach(backlog: seq<AuditRow>, limit: nat) {
    forall i, j | 0 <= i < limit && i < |backlog| && 0 <= j < |backlog| && i != j && backlog[i].Orphaned? ::
      !Resolves(RecoveryOf(backlog[i]), backlog[j])
  }

  lemma {:induction false} RecoveriesComeFrom(orphans: seq<AuditRow>, i: nat, answers: SweepAnswers, row: AuditRow)
    requires i <= |orphans| && row in Recoveries(orphans, i, answers)
    ensures exists m :: i <= m < |orphans| && Recovered(orphans, m, answers) && row == RecoveryOf(orphans[m])
    decreases |orphans| - i
  {
    if !(Recovered(orphans, i, answers) && row == RecoveryOf(orphans[i])) {
      RecoveriesComeFrom(orphans, i + 1, answers, row);
    }
  }

  /** Each new orphan is the orphan of a row of its own. */
  lemma {:induction false} NewOrphansAreApart(t: Tables, rows: seq<DueRow>, i: nat, answers: SweepAnswers, j: nat, k: nat)
    requires i <= |rows| && Apart(t) && PageFits(t, rows, i)
    requires j < |NewOrphans(rows, i, true, answers)| && k < |NewOrphans(rows, i, true, answers)| && j != k
    ensures var added := NewOrphans(rows, i, true, answers);
      added[j].Orphaned? && added[k].Orphaned? && !Resolves(RecoveryOf(added[j]), added[k])
    decreases |rows| - i
  {
    var added, rest := NewOrphans(rows, i, true, answers), NewOrphans(rows, i + 1, true, answers);
    if NewOrphanAt(rows[i], i, true, answers) == [] {
      assert added == rest;
      NewOrphansAreApart(t, rows, i + 1, answers, j, k);
    } else {
      assert added[0] == Orphaned(Some(rows[i].id), rows[i].path) && added[1..] == rest;
      if j > 0 && k > 0 {
        NewOrphansAreApart(t, rows, i + 1, answers, j - 1, k - 1);
      } else {
        var other := added[if j > 0 then j else k];
        assert other == rest[(if j > 0 then j else k) - 1] && other in rest;
        var l :| i + 1 <= l < |rows| && other == Orphaned(Some(rows[l].id), rows[l].path);
        assert rows[i].id != rows[l].id;
      }
    }
  }

  /** A new orphan and one already on the log have nothing in common. */
  lemma NewAndOldAreApart(t: Tables, rows: seq<DueRow>, answers: SweepAnswers, added: AuditRow, standing: AuditRow)
    requires Apart(t) && PageFits(t, rows, 0) && added in NewOrphans(rows, 0, true, answers) && standing in t.audit
    ensures added.Orphaned? && !Resolves(RecoveryOf(added), standing)
    ensures standing.Orphaned? ==> !Resolves(RecoveryOf(standing), added)
  {
    var l :| 0 <= l < |rows| && added == Orphaned(Some(rows[l].id), rows[l].path);
    var k :| 0 <= k < |t.audit| && t.audit[k] == standing;
    assert NotNamed(t.audit[k], rows[l].id, t.evidence[rows[l].id].path);
  }

  /** Where each speaks for itself alone before the sweep, each does once the sweep has added its own. */
  lemma OneEachStays(t: Tables, rows: seq<DueRow>, limit: nat, answers: SweepAnswers, m: nat, k: nat)
    requires Apart(t) && PageFits(t, rows, 0) && OneEach(Backlog(t.audit), limit)
    requires var backlog := Backlog(t.audit) + NewOrphans(rows, 0, true, answers);
      m < limit && m < |backlog| && k < |backlog| && m != k && backlog[m].Orphaned?
    ensures var backlog := Backlog(t.audit) + NewOrphans(rows, 0, true, answers);
      !Resolves(RecoveryOf(backlog[m]), backlog[k])
  {
    var standing, added := Backlog(t.audit), NewOrphans(rows, 0, true, answers);
    var backlog, n := standing + added, |standing|;
    if m < n && k < n {
      assert backlog[m] == standing[m] && backlog[k] == standing[k];
    } else if m >= n && k >= n {
      NewOrphansAreApart(t, rows, 0, answers, m - n, k - n);
    } else if m < n {
      assert backlog[m] == standing[m] && standing[m] in standing && backlog[k] == added[k - n] && added[k - n] in added;
      NewAndOldAreApart(t, rows, answers, backlog[k], backlog[m]);
    } else {
      assert backlog[k] == standing[k] && standing[k] in standing && backlog[m] == added[m - n] && added[m - n] in added;
      NewAndOldAreApart(t, rows, answers, backlog[m], backlog[k]);
    }
  }

  lemma OneEachBalances(t: Tables, page: seq<DueRow>, at: Instant, limit: nat, answers: SweepAnswers)
    requires Sound(t) && PageFits(t, page, 0) && OneEach(Backlog(t.audit), limit)
    ensures Balances(t, page, at, limit, answers)
  {
    var rows := DueForDeletion(page, at);
    PageStillFits(t, page, at);
    SoundMeansNeverRecovered(t, page, at);
    OutstandingBalancesIff(t, page, at, limit, answers);
    var backlog := Backlog(t.audit) + NewOrphans(rows, 0, true, answers);
    var asked := FirstOf(backlog, limit);
    var recoveries := Recoveries(asked, 0, answers);
    forall k | 0 <= k < |backlog| && ResolvedBy(recoveries, backlog[k]) ensures Recovered(asked, k, answers) {
      var later :| later in recoveries && Resolves(later, backlog[k]);
      RecoveriesComeFrom(asked, 0, answers, later);
      var m :| 0 <= m < |asked| && Recovered(asked, m, answers) && later == RecoveryOf(asked[m]);
      if m != k {
        OneEachStays(t, rows, limit, answers, m, k);
      }
    }
  }

  /** Nothing is deleted, and the object store gives up one path and no other. */
  function OnlyThis(i: nat): SweepAnswers {
    SweepAnswers(_ => false, _ => false, _ => false, (k: nat) => k == i, _ => true)
  }

  lemma {:induction false} NothingDeletedNothingAdded(rows: seq<DueRow>, i: nat, k: nat)
    requires k <= |rows|
    ensures NewOrphans(rows, k, true, OnlyThis(i)) == []
    decreases |rows| - k
  {
    if k < |rows| {
      NothingDeletedNothingAdded(rows, i, k + 1);
    }
  }

  lemma SharedKeysUnbalance(t: Tables, page: seq<DueRow>, at: Instant, limit: nat, i: nat, j: nat)
    requires Sound(t) && PageFits(t, page, 0)
    requires var backlog := Backlog(t.audit);
      i < limit && i < |backlog| && j < |backlog| && i != j && backlog[i].Orphaned? && Resolves(RecoveryOf(backlog[i]), backlog[j])
    ensures !Balances(t, page, at, limit, OnlyThis(i))
  {
    var answers, backlog := OnlyThis(i), Backlog(t.audit);
    SoundMeansNeverRecovered(t, page, at);
    NothingDeletedNothingAdded(DueForDeletion(page, at), i, 0);
    OutstandingBalancesIff(t, page, at, limit, answers);
    assert backlog + [] == backlog;
    var asked := FirstOf(backlog, limit);
    assert asked[i] == backlog[i] && Recovered(asked, i, answers);
    assert RecoveryOf(asked[i]) in Recoveries(asked, 0, answers);
    assert ResolvedBy(Recoveries(asked, 0, answers), backlog[j]) && !Recovered(asked, j, answers);
  }

  /**
  The outstanding count balances, whatever the database and the object store answer,
  exactly when no readable orphan among the first `limit` of the log's backlog speaks
  for another row of it: by its path, or by its evidence row.
  */
  lemma AlwaysBalancesIff(t: Tables, page: seq<DueRow>, at: Instant, limit: nat)
    requires Sound(t) && PageFits(t, page, 0)
    ensures AlwaysBalances(t, page, at, limit) <==> OneEach(Backlog(t.audit), limit)
  {
    var backlog := Backlog(t.audit);
    if OneEach(backlog, limit) {
      forall answers: SweepAnswers ensures Balances(t, page, at, limit, answers) {
        OneEachBalances(t, page, at, limit, answers);
      }
    } else {
      var i, j :| 0 <= i < limit && i < |backlog| && 0 <= j < |backlog| && i != j && backlog[i].Orphaned?
        && Resolves(RecoveryOf(backlog[i]), backlog[j]);
      SharedKeysUnbalance(t, page, at, limit, i, j);
    }
  }

  /** Every row read is deleted, and none of its bytes will go. */
  function Refusing(): SweepAnswers {
    SweepAnswers(_ => true, _ => false, _ => true, _ => false, _ => true)
  }

  function RefusedDeletion(t: Tables, row: DueRow): Tables {
    DeleteFrom(Progress(t, NOTHING_YET), [row], 0, true, Refusing()).tables
  }

  /**
  How such a log comes about: two sweeps that have both read one row each delete it,
  and each puts its bytes on record. From then on a retry pass that reaches the first
  record need not balance.
  */
  lemma OverlappingSweepsDoubleTheOrphan(t: Tables, row: DueRow, page: seq<DueRow>, at: Instant, limit: nat)
    requires Sound(t) && PageFits(t, [row], 0) && limit > |Backlog(t.audit)|
    requires PageFits(RefusedDeletion(RefusedDeletion(t, row), row), page, 0)
    ensures var u := RefusedDeletion(RefusedDeletion(t, row), row);
      && Sound(u)
      && Backlog(u.audit) == Backlog(t.audit) + [Orphaned(Some(row.id), row.path), Orphaned(Some(row.id), row.path)]
      && !AlwaysBalances(u, page, at, limit)
  {
    var orphan := Orphaned(Some(row.id), row.path);
    var once := RefusedDeletion(t, row);
    var twice := RefusedDeletion(once, row);
    RefusedDeletionLogs(t, row);
    RefusedDeletionLogs(once, row);
    RefusedTwiceIsSound(t, row);
    RowIsUnresolved(t, row);
    assert twice.audit == t.audit + [orphan, orphan];
    OrphansJoin(t.audit, [orphan, orphan]);
    var n, backlog := |Backlog(t.audit)|, Backlog(twice.audit);
    assert backlog[n] == orphan && backlog[n + 1] == orphan && Resolves(RecoveryOf(orphan), orphan);
    AlwaysBalancesIff(twice, page, at, limit);
  }

  lemma RefusedDeletionLogs(t: Tables, row: DueRow)
    ensures RefusedDeletion(t, row) == RowGone(t, row).(audit := t.audit + [Orphaned(Some(row.id), row.path)])
  {
    var p := Progress(t, NOTHING_YET);
    var q := DeleteOne(p, row, 0, true, Refusing());
    assert DeleteFrom(q, [row], 1, true, Refusing()) == q;
  }

  lemma RefusedTwiceIsSound(t: Tables, row: DueRow)
    requires Sound(t) && PageFits(t, [row], 0)
    ensures Sound(RefusedDeletion(RefusedDeletion(t, row), row))
  {
    var once := RefusedDeletion(t, row);
    DeletesKeepSound(Progress(t, NOTHING_YET), [row], 0, true, Refusing());
    RefusedDeletionLogs(t, row);
    RefusedDeletionLogs(once, row);
    assert once.audit[|t.audit|] == Orphaned(Some(row.id), row.path);
    assert forall id | id in once.evidence :: NotNamed(once.audit[|t.audit|], id, once.evidence[id].path);
  }

  lemma RowIsUnresolved(t: Tables, row: DueRow)
    requires Sound(t) && PageFits(t, [row], 0)
    ensures Unresolved(t.audit, Orphaned(Some(row.id), row.path))
  {
    assert [row][0] == row;
    forall later | later in t.audit ensures !Resolves(later, Orphaned(Some(row.id), row.path)) {
      var l :| 0 <= l < |t.audit| && t.audit[l] == later;
      assert NotNamed(t.audit[l], row.id, t.evidence[row.id].path);
    }
  }

  // ----- what the retry pass can and cannot clear ---------------------------

  predicate ObjectStoreYields(answers: SweepAnswers, n: nat) {
    forall k | 0 <= k < n :: answers.removesLater(k) && answers.recordsLater(k)
  }

  lemma {:induction false} AllMatchedLeavesNothing(rows: seq<AuditRow>, recoveries: seq<AuditRow>)
    requires forall row | row in rows :: ResolvedBy(recoveries, row)
    ensures Unmatched(rows, recoveries) == []
  {
    if rows != [] {
      AllMatchedLeavesNothing(rows[1..], recoveries);
    }
  }

  /** Once the object store yields, one retry pass clears a readable backlog that fits its limit. */
  lemma YieldingStoreClearsTheBacklog(p: Progress, limit: nat, answers: SweepAnswers)
    requires |Backlog(p.tables.audit)| <= limit && ObjectStoreYields(answers, limit)
    requires forall row | row in Backlog(p.tables.audit) :: row.Orphaned?
    ensures Backlog(Retried(p, limit, answers).tables.audit) == []
    ensures Retried(p, limit, answers).tally.artefactsRecovered == p.tally.artefactsRecovered + |Backlog(p.tables.audit)|
  {
    var orphans := Backlog(p.tables.audit);
    var recoveries := Recoveries(orphans, 0, answers);
    RetriesAreCounted(p, orphans, 0, answers);
    RecoveriesTakeOut(p.tables.audit, recoveries);
    forall row | row in orphans ensures ResolvedBy(recoveries, row) {
      var k :| 0 <= k < |orphans| && orphans[k] == row;
      assert Recovered(orphans, k, answers);
      assert Resolves(RemovedLater(orphans[k].entity, orphans[k].path), row);
    }
    AllMatchedLeavesNothing(orphans, recoveries);
    AllRecovered(orphans, 0, answers);
  }

  lemma {:induction false} AllRecovered(orphans: seq<AuditRow>, i: nat, answers: SweepAnswers)
    requires i <= |orphans| && forall k | i <= k < |orphans| :: Recovered(orphans, k, answers)
    ensures |Recoveries(orphans, i, answers)| == |orphans| - i
    decreases |orphans| - i
  {
    if i < |orphans| {
      AllRecovered(orphans, i + 1, answers);
    }
  }

  predicate AllUnreadable(rows: seq<AuditRow>) {
    forall k | 0 <= k < |rows| :: rows[k].Unreadable?
  }

  lemma {:induction false} UnreadableRecoverNothing(orphans: seq<AuditRow>, i: nat, answers: SweepAnswers)
    requires i <= |orphans| && AllUnreadable(orphans)
    ensures Recoveries(orphans, i, answers) == []
    decreases |orphans| - i
  {
    if i < |orphans| {
      UnreadableRecoverNothing(orphans, i + 1, answers);
    }
  }

  lemma {:induction false} SomethingRecovered(orphans: seq<AuditRow>, i: nat, k: nat, answers: SweepAnswers)
    requires i <= k < |orphans| && Recovered(orphans, k, answers)
    ensures |Recoveries(orphans, i, answers)| > 0
    decreases k - i
  {
    if i < k {
      SomethingRecovered(orphans, i + 1, k, answers);
    }
  }

  /**
  Rows whose path cannot be read hold their places: even when every removal would
  now work, the retry pass recovers nothing exactly when the first `limit` of the
  backlog are all unreadable, and then the next pass reads those same rows.
  */
  lemma RetryIsJammedIff(p: Progress, limit: nat, answers: SweepAnswers)
    requires ObjectStoreYields(answers, limit)
    ensures
      var asked, after := FirstOf(Backlog(p.tables.audit), limit), Retried(p, limit, answers);
      && (after.tally.artefactsRecovered == p.tally.artefactsRecovered <==> AllUnreadable(asked))
      && (AllUnreadable(asked) ==> FirstOf(Backlog(after.tables.audit), limit) == asked && after.tables.store == p.tables.store)
  {
    var asked := FirstOf(Backlog(p.tables.audit), limit);
    RetriesAreCounted(p, asked, 0, answers);
    if AllUnreadable(asked) {
      UnreadableRecoverNothing(asked, 0, answers);
      UnreadableTouchNothing(p, asked, 0, answers);
    } else {
      var k :| 0 <= k < |asked| && !asked[k].Unreadable?;
      assert asked[k] == Backlog(p.tables.audit)[k] && asked[k] in Backlog(p.tables.audit);
      SomethingRecovered(asked, 0, k, answers);
    }
  }

  lemma {:induction false} UnreadableTouchNothing(p: Progress, orphans: seq<AuditRow>, i: nat, answers: SweepAnswers)
    requires i <= |orphans| && AllUnreadable(orphans)
    ensures RetryFrom(p, orphans, i, answers).tables == p.tables
    decreases |orphans| - i
  {
    if i < |orphans| {
      UnreadableTouchNothing(RetryOne(p, orphans[i], i, answers), orphans, i + 1, answers);
    }
  }
}
