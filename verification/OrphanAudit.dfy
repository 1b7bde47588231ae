/**
The two audit actions that keep leftover bytes findable, and the rule that says
which orphans are still unresolved. The log is append-only: a recovery is a later
row, never an edit.
*/
module OrphanAudit {
  import opened Options

  type Path = nat
  type EvidenceId = nat

  /** A rolled-back run has no evidence row to name, and an old row may carry no path that can be read. */
  datatype AuditRow =
    | Orphaned(entity: Option<EvidenceId>, path: Path)
    | Unreadable(entity: Option<EvidenceId>)
    | RemovedLater(entity: Option<EvidenceId>, path: Path)

  /** A recovery resolves an orphan of the same path, or of the same evidence row. */
  predicate Resolves(later: AuditRow, orphan: AuditRow) {
    later.RemovedLater? &&
    ((orphan.Orphaned? && later.path == orphan.path) || (orphan.entity.Some? && later.entity == orphan.entity))
  }

  predicate ResolvedBy(rows: seq<AuditRow>, orphan: AuditRow) {
    exists later | later in rows :: Resolves(later, orphan)
  }

  predicate Unresolved(audit: seq<AuditRow>, row: AuditRow) {
    !row.RemovedLater? && !ResolvedBy(audit, row)
  }

  function UnresolvedAmong(rows: seq<AuditRow>, audit: seq<AuditRow>): (r: seq<AuditRow>)
    ensures forall row | row in r :: row in rows && Unresolved(audit, row)
  {
    if rows == [] then []
    else (if Unresolved(audit, rows[0]) then [rows[0]] else []) + UnresolvedAmong(rows[1..], audit)
  }

  /** What the retry pass reads, oldest first, and what the outstanding count counts. */
  function Backlog(audit: seq<AuditRow>): seq<AuditRow> {
    UnresolvedAmong(audit, audit)
  }

  // ----- the other spelling of the rule -------------------------------------

  function RecoveredPaths(rows: seq<AuditRow>): set<Path> {
    set row | row in rows && row.RemovedLater? :: row.path
  }

  function RecoveredEntities(rows: seq<AuditRow>): set<EvidenceId> {
    set row | row in rows && row.RemovedLater? && row.entity.Some? :: row.entity.value
  }

  predicate KeptBySets(paths: set<Path>, entities: set<EvidenceId>, row: AuditRow) {
    if row.RemovedLater? then false
    else if row.Orphaned? && row.path in paths then false
    else !(row.entity.Some? && row.entity.value in entities)
  }

  function FilterBySets(rows: seq<AuditRow>, paths: set<Path>, entities: set<EvidenceId>): seq<AuditRow> {
    if rows == [] then []
    else (if KeptBySets(paths, entities, rows[0]) then [rows[0]] else []) + FilterBySets(rows[1..], paths, entities)
  }

  /** `unresolvedOrphans`: the same rule for a caller holding rows, by two sets instead of a join. */
  function UnresolvedOrphans(rows: seq<AuditRow>): seq<AuditRow> {
    FilterBySets(rows, RecoveredPaths(rows), RecoveredEntities(rows))
  }

  lemma SetsDecideOneRow(audit: seq<AuditRow>, row: AuditRow)
    ensures KeptBySets(RecoveredPaths(audit), RecoveredEntities(audit), row) <==> Unresolved(audit, row)
  {
    if row.Orphaned? && row.path in RecoveredPaths(audit) {
      var later :| later in audit && later.RemovedLater? && later.path == row.path;
      assert Resolves(later, row);
    }
    if row.entity.Some? && row.entity.value in RecoveredEntities(audit) && !row.RemovedLater? {
      var later :| later in audit && later.RemovedLater? && later.entity == row.entity;
      assert Resolves(later, row);
    }
  }

  lemma {:induction false} FiltersAgree(rows: seq<AuditRow>, audit: seq<AuditRow>)
    ensures FilterBySets(rows, RecoveredPaths(audit), RecoveredEntities(audit)) == UnresolvedAmong(rows, audit)
  {
    if rows != [] {
      SetsDecideOneRow(audit, rows[0]);
      FiltersAgree(rows[1..], audit);
    }
  }

  /** The join the sweep reads and the two sets a page reads give the same rows in the same order. */
  lemma TwoSpellingsAgree(rows: seq<AuditRow>)
    ensures UnresolvedOrphans(rows) == Backlog(rows)
  {
    FiltersAgree(rows, rows);
  }

  // ----- how each spelling reads a path -------------------------------------

  /** A row of the log as it is stored: the path column, and what the pattern finds in the sentence, if anything. */
  datatype LogRow = LogRow(recovery: bool, entity: Option<EvidenceId>, stored: Option<string>, sentence: Option<string>)

  /** `coalesce` passes over a null alone. */
  function QueryPath(row: LogRow): Option<string> {
    if row.stored.Some? then row.stored else row.sentence
  }

  /** `orphanPath` passes over an empty path too. */
  function CodePath(row: LogRow): Option<string> {
    if row.stored.Some? && row.stored.value != "" then row.stored else row.sentence
  }

  /** The pattern matches one character or more. */
  predicate Written(row: LogRow) {
    row.sentence != Some("")
  }

  lemma ReadersAgreeIff(row: LogRow)
    requires Written(row)
    ensures QueryPath(row) == CodePath(row) <==> row.stored != Some("")
  {
  }

  predicate SameEntity(later: LogRow, orphan: LogRow) {
    orphan.entity.Some? && later.entity == orphan.entity
  }

  predicate QueryResolves(later: LogRow, orphan: LogRow) {
    later.recovery && ((QueryPath(later).Some? && QueryPath(later) == QueryPath(orphan)) || SameEntity(later, orphan))
  }

  predicate CodeResolves(later: LogRow, orphan: LogRow) {
    later.recovery && ((CodePath(later).Some? && CodePath(later) == CodePath(orphan)) || SameEntity(later, orphan))
  }

  predicate QueryKeeps(log: seq<LogRow>, row: LogRow) {
    !row.recovery && forall later | later in log :: !QueryResolves(later, row)
  }

  function CodePaths(log: seq<LogRow>): set<string> {
    set row | row in log && row.recovery && CodePath(row).Some? :: CodePath(row).value
  }

  function CodeEntities(log: seq<LogRow>): set<EvidenceId> {
    set row | row in log && row.recovery && row.entity.Some? :: row.entity.value
  }

  predicate CodeKeeps(log: seq<LogRow>, row: LogRow) {
    && !row.recovery
    && !(CodePath(row).Some? && CodePath(row).value in CodePaths(log))
    && !(row.entity.Some? && row.entity.value in CodeEntities(log))
  }

  function Kept(rows: seq<LogRow>, keeps: LogRow -> bool): (r: seq<LogRow>)
    ensures forall row :: row in r <==> row in rows && keeps(row)
  {
    if rows == [] then [] else (if keeps(rows[0]) then [rows[0]] else []) + Kept(rows[1..], keeps)
  }

  function QueryBacklog(log: seq<LogRow>): seq<LogRow> {
    Kept(log, (row: LogRow) => QueryKeeps(log, row))
  }

  function CodeBacklog(log: seq<LogRow>): seq<LogRow> {
    Kept(log, (row: LogRow) => CodeKeeps(log, row))
  }

  lemma CodeKeepsIff(log: seq<LogRow>, row: LogRow)
    ensures CodeKeeps(log, row) <==> !row.recovery && forall later | later in log :: !CodeResolves(later, row)
  {
    if later :| later in log && CodeResolves(later, row) {
      assert SameEntity(later, row) ==> row.entity.value in CodeEntities(log);
      assert CodePath(later).Some? ==> CodePath(later).value in CodePaths(log);
    }
  }

  lemma {:induction false} KeptAlike(rows: seq<LogRow>, keeps: LogRow -> bool, alike: LogRow -> bool)
    requires forall row | row in rows :: keeps(row) == alike(row)
    ensures Kept(rows, keeps) == Kept(rows, alike)
  {
    if rows != [] {
      KeptAlike(rows[1..], keeps, alike);
    }
  }

  /** The two spellings read this recovery and this orphan the same way. */
  predicate ReadAlike(later: LogRow, orphan: LogRow) {
    QueryResolves(later, orphan) <==> CodeResolves(later, orphan)
  }

  predicate AllReadAlike(rows: set<LogRow>) {
    forall later, orphan | later in rows && orphan in rows && !orphan.recovery :: ReadAlike(later, orphan)
  }

  ghost predicate AgreeOnAllLogs(rows: set<LogRow>) {
    forall log: seq<LogRow> | (forall row | row in log :: row in rows) :: QueryBacklog(log) == CodeBacklog(log)
  }

  lemma AlikeAgrees(rows: set<LogRow>, log: seq<LogRow>)
    requires AllReadAlike(rows) && forall row | row in log :: row in rows
    ensures QueryBacklog(log) == CodeBacklog(log)
  {
    forall row | row in log ensures QueryKeeps(log, row) <==> CodeKeeps(log, row) {
      CodeKeepsIff(log, row);
      assert !row.recovery ==> forall later | later in log :: ReadAlike(later, row);
    }
    KeptAlike(log, (row: LogRow) => QueryKeeps(log, row), (row: LogRow) => CodeKeeps(log, row));
  }

  lemma PairTells(later: LogRow, orphan: LogRow)
    requires !orphan.recovery && !ReadAlike(later, orphan)
    ensures QueryBacklog([orphan, later]) != CodeBacklog([orphan, later])
  {
    var log := [orphan, later];
    CodeKeepsIff(log, orphan);
    assert later in log && forall row | row in log && row.recovery :: row == later;
    assert QueryKeeps(log, orphan) != CodeKeeps(log, orphan);
    assert orphan in log;
  }

  /**
  The join the sweep reads and the sets a page reads give the same backlog on every log of
  some rows exactly when they read each recovery and orphan of them alike; and they do
  wherever no row carries an empty path.
  */
  lemma SpellingsAgreeIff(rows: set<LogRow>)
    ensures AgreeOnAllLogs(rows) <==> AllReadAlike(rows)
    ensures (forall row | row in rows :: row.stored != Some("")) ==> AllReadAlike(rows)
  {
    if AllReadAlike(rows) {
      forall log: seq<LogRow> | forall row | row in log :: row in rows ensures QueryBacklog(log) == CodeBacklog(log) {
        AlikeAgrees(rows, log);
      }
    } else {
      var later, orphan :| later in rows && orphan in rows && !orphan.recovery && !ReadAlike(later, orphan);
      PairTells(later, orphan);
      assert forall row | row in [orphan, later] :: row in rows;
    }
  }

  /** An empty path in the orphan's column: the page finds the recovery by the sentence, and the query does not. */
  lemma EmptyPathDivides(path: string) returns (orphan: LogRow, later: LogRow)
    requires path != ""
    ensures !orphan.recovery && later.recovery && Written(orphan) && Written(later) && orphan.stored == Some("")
    ensures QueryKeeps([orphan, later], orphan) && !CodeKeeps([orphan, later], orphan)
  {
    orphan, later := LogRow(false, None, Some(""), Some(path)), LogRow(true, None, Some(path), None);
    CodeKeepsIff([orphan, later], orphan);
    assert later in [orphan, later] && CodeResolves(later, orphan);
  }

  // ----- how the backlog moves ----------------------------------------------

  lemma {:induction false} AmongConcat(a: seq<AuditRow>, b: seq<AuditRow>, audit: seq<AuditRow>)
    ensures UnresolvedAmong(a + b, audit) == UnresolvedAmong(a, audit) + UnresolvedAmong(b, audit)
  {
    if a == [] {
      assert a + b == b;
    } else {
      assert (a + b)[1..] == a[1..] + b;
      AmongConcat(a[1..], b, audit);
    }
  }

  lemma {:induction false} AmongRecoveries(recoveries: seq<AuditRow>, audit: seq<AuditRow>)
    requires forall row | row in recoveries :: row.RemovedLater?
    ensures UnresolvedAmong(recoveries, audit) == []
  {
    if recoveries != [] {
      assert recoveries[0].RemovedLater?;
      AmongRecoveries(recoveries[1..], audit);
    }
  }

  lemma {:induction false} AmongOrphans(orphans: seq<AuditRow>, audit: seq<AuditRow>)
    requires forall row | row in orphans :: Unresolved(audit, row)
    ensures UnresolvedAmong(orphans, audit) == orphans
  {
    if orphans != [] {
      AmongOrphans(orphans[1..], audit);
    }
  }

  lemma ResolvedByEither(a: seq<AuditRow>, b: seq<AuditRow>, row: AuditRow)
    ensures ResolvedBy(a + b, row) <==> ResolvedBy(a, row) || ResolvedBy(b, row)
  {
    if ResolvedBy(a, row) {
      var later :| later in a && Resolves(later, row);
      assert later in a + b;
    }
    if ResolvedBy(b, row) {
      var later :| later in b && Resolves(later, row);
      assert later in a + b;
    }
  }

  lemma {:induction false} OrphansResolveNothing(rows: seq<AuditRow>, audit: seq<AuditRow>, orphans: seq<AuditRow>)
    requires forall row | row in orphans :: !row.RemovedLater?
    ensures UnresolvedAmong(rows, audit + orphans) == UnresolvedAmong(rows, audit)
  {
    if rows != [] {
      ResolvedByEither(audit, orphans, rows[0]);
      OrphansResolveNothing(rows[1..], audit, orphans);
    }
  }

  /** New orphans join the end of the backlog, unless something already resolves them. */
  lemma OrphansJoin(audit: seq<AuditRow>, orphans: seq<AuditRow>)
    requires forall row | row in orphans :: Unresolved(audit, row)
    ensures Backlog(audit + orphans) == Backlog(audit) + orphans
  {
    AmongConcat(audit, orphans, audit + orphans);
    OrphansResolveNothing(audit, audit, orphans);
    OrphansResolveNothing(orphans, audit, orphans);
    AmongOrphans(orphans, audit);
  }

  function Unmatched(rows: seq<AuditRow>, recoveries: seq<AuditRow>): seq<AuditRow> {
    if rows == [] then []
    else (if ResolvedBy(recoveries, rows[0]) then [] else [rows[0]]) + Unmatched(rows[1..], recoveries)
  }

  lemma {:induction false} RecoveriesFilter(rows: seq<AuditRow>, audit: seq<AuditRow>, recoveries: seq<AuditRow>)
    ensures UnresolvedAmong(rows, audit + recoveries) == Unmatched(UnresolvedAmong(rows, audit), recoveries)
  {
    if rows != [] {
      ResolvedByEither(audit, recoveries, rows[0]);
      RecoveriesFilter(rows[1..], audit, recoveries);
      var all, rest := UnresolvedAmong(rows, audit), UnresolvedAmong(rows[1..], audit);
      if Unresolved(audit, rows[0]) {
        assert all == [rows[0]] + rest && all[1..] == rest;
      } else {
        assert all == rest;
        assert UnresolvedAmong(rows, audit + recoveries) == UnresolvedAmong(rows[1..], audit + recoveries);
      }
    }
  }

  /** Recoveries take out of the backlog exactly what they resolve, and leave the rest in order. */
  lemma RecoveriesTakeOut(audit: seq<AuditRow>, recoveries: seq<AuditRow>)
    requires forall row | row in recoveries :: row.RemovedLater?
    ensures Backlog(audit + recoveries) == Unmatched(Backlog(audit), recoveries)
  {
    AmongConcat(audit, recoveries, audit + recoveries);
    AmongRecoveries(recoveries, audit + recoveries);
    RecoveriesFilter(audit, audit, recoveries);
  }
}
