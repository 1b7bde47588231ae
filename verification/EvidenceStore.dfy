/**
The evidence tables and the object store behind them, with the two operations
that change both: the persist of one assessment, and the retention sweep.
*/
module EvidenceStore {
  import opened Counting
  import opened Options
  import opened OrphanAudit

  type Instant = int
  type ArtefactId = nat
  type AssessmentId = nat

  datatype Evidence = Evidence(assessment: AssessmentId, sha256: nat, retentionUntil: Instant, path: Path)
  datatype Deletion = Deletion(entity: EvidenceId, sha256: nat, retentionUntil: Instant)
  datatype Link = Link(assessment: AssessmentId, finding: nat, evidence: EvidenceId)

  datatype Tables = Tables(
    store: set<Path>,
    evidence: map<EvidenceId, Evidence>,
    links: set<Link>,
    deletions: seq<Deletion>,
    audit: seq<AuditRow>)

  // ----- persisting one outcome ---------------------------------------------

  datatype Artefact = Artefact(id: ArtefactId, sha256: nat, retentionUntil: Instant, path: Path)

  datatype PersistError =
    | MissingEvidenceBody(artefact: ArtefactId)
    | UploadFailed
    | AuthorisationWithdrawn
    | DanglingEvidence(finding: nat, artefact: ArtefactId)
    | DatabaseFailed

  datatype PersistResult = Persisted(assessment: AssessmentId) | Threw(error: PersistError)

  /**
  What the object store and the database answer to one persist, call by call.
  `authorised` is absent when the question itself throws; `opens` is the assessment's
  own row and its stages', before the evidence; `joins` is each finding's each
  citation; `commits` is the rest, after the findings.
  */
  datatype PersistAnswers = PersistAnswers(
    uploads: nat -> bool,
    begins: bool,
    authorised: Option<bool>,
    opens: bool,
    inserts: nat -> bool,
    findings: nat -> bool,
    joins: (nat, nat) -> bool,
    commits: bool,
    rollsBack: bool,
    removals: nat -> bool,
    records: nat -> bool)

  datatype Run = Run(
    assessment: AssessmentId,
    artefacts: seq<Artefact>,
    bodies: set<ArtefactId>,
    citations: seq<seq<ArtefactId>>)

  predicate Uploads(run: Run, answers: PersistAnswers, i: nat)
    requires i < |run.artefacts|
  {
    run.artefacts[i].id in run.bodies && answers.uploads(i)
  }

  /** How many artefacts the upload loop stores before it finishes or throws. */
  function StoredCount(run: Run, answers: PersistAnswers, i: nat): (k: nat)
    requires i <= |run.artefacts|
    ensures i <= k <= |run.artefacts|
    ensures forall j | i <= j < k :: Uploads(run, answers, j)
    ensures k < |run.artefacts| ==> !Uploads(run, answers, k)
    decreases |run.artefacts| - i
  {
    if i < |run.artefacts| && Uploads(run, answers, i) then StoredCount(run, answers, i + 1) else i
  }

  function UploadError(run: Run, i: nat): PersistError
    requires i < |run.artefacts|
  {
    if run.artefacts[i].id in run.bodies then UploadFailed else MissingEvidenceBody(run.artefacts[i].id)
  }

  function Paths(artefacts: seq<Artefact>): (r: seq<Path>)
    ensures |r| == |artefacts| && forall i | 0 <= i < |r| :: r[i] == artefacts[i].path
  {
    seq(|artefacts|, i requires 0 <= i < |artefacts| => artefacts[i].path)
  }

  function PathSet(paths: seq<Path>): set<Path> {
    set p | p in paths
  }

  predicate Cites(run: Run, artefact: ArtefactId) {
    exists i | 0 <= i < |run.artefacts| :: run.artefacts[i].id == artefact
  }

  /** The citation names an artefact of this run, and its join row is taken. */
  predicate CitationFine(run: Run, answers: PersistAnswers, f: nat, k: nat)
    requires f < |run.citations| && k < |run.citations[f]|
  {
    Cites(run, run.citations[f][k]) && answers.joins(f, k)
  }

  predicate CitationsFine(run: Run, answers: PersistAnswers, f: nat, k: nat)
    requires f < |run.citations| && k <= |run.citations[f]|
  {
    answers.findings(f) && forall j | 0 <= j < k :: CitationFine(run, answers, f, j)
  }

  /** Every one of the first `f` findings is taken, and every citation of it. */
  predicate FindingsFine(run: Run, answers: PersistAnswers, f: nat)
    requires f <= |run.citations|
  {
    forall g | 0 <= g < f :: CitationsFine(run, answers, g, |run.citations[g]|)
  }

  predicate Inserts(run: Run, answers: PersistAnswers) {
    forall i | 0 <= i < |run.artefacts| :: answers.inserts(i)
  }

  predicate Commits(run: Run, answers: PersistAnswers) {
    answers.authorised == Some(true) && answers.opens && Inserts(run, answers)
    && FindingsFine(run, answers, |run.citations|) && answers.commits
  }

  /** The exact condition under which a run's output is written down. */
  predicate Persists(run: Run, answers: PersistAnswers) {
    (forall i | 0 <= i < |run.artefacts| :: Uploads(run, answers, i)) && answers.begins && Commits(run, answers)
  }

  /** The first finding the database refuses, or the first citation of nothing or with its join row refused. */
  predicate FindingError(run: Run, answers: PersistAnswers, error: PersistError) {
    exists f | 0 <= f < |run.citations| ::
      FindingsFine(run, answers, f) &&
      if !answers.findings(f) then error == DatabaseFailed
      else exists k | 0 <= k < |run.citations[f]| ::
        && CitationsFine(run, answers, f, k) && !CitationFine(run, answers, f, k)
        && error == CitationError(run, f, run.citations[f][k])
  }

  function CitationError(run: Run, f: nat, cited: ArtefactId): PersistError {
    if Cites(run, cited) then DatabaseFailed else DanglingEvidence(f, cited)
  }

  /** Which error a transaction that does not commit throws, in the order the code asks. */
  predicate TransactionError(run: Run, answers: PersistAnswers, error: PersistError) {
    if answers.authorised == None then error == DatabaseFailed
    else if answers.authorised == Some(false) then error == AuthorisationWithdrawn
    else if !answers.opens || !Inserts(run, answers) then error == DatabaseFailed
    else if !FindingsFine(run, answers, |run.citations|) then FindingError(run, answers, error)
    else !answers.commits && error == DatabaseFailed
  }

  /** What a persist that is not written down throws: where the uploads stop, or the transaction's own. */
  predicate Throws(run: Run, answers: PersistAnswers, error: PersistError) {
    if StoredCount(run, answers, 0) < |run.artefacts| then error == UploadError(run, StoredCount(run, answers, 0))
    else if !answers.begins || !answers.rollsBack then error == DatabaseFailed
    else TransactionError(run, answers, error)
  }

  function RowFor(run: Run, i: nat): Evidence
    requires i < |run.artefacts|
  {
    var artefact := run.artefacts[i];
    Evidence(run.assessment, artefact.sha256, artefact.retentionUntil, artefact.path)
  }

  /** The evidence table after the first `n` inserts. */
  function WithRows(evidence: map<EvidenceId, Evidence>, run: Run, ids: seq<EvidenceId>, n: nat)
    : map<EvidenceId, Evidence>
    requires n <= |ids| == |run.artefacts|
  {
    if n == 0 then evidence else WithRows(evidence, run, ids, n - 1)[ids[n - 1] := RowFor(run, n - 1)]
  }

  /** The row id each engine id was stored under, after the first `n` inserts. */
  function IdMap(run: Run, ids: seq<EvidenceId>, n: nat): map<ArtefactId, EvidenceId>
    requires n <= |ids| == |run.artefacts|
  {
    if n == 0 then map[] else IdMap(run, ids, n - 1)[run.artefacts[n - 1].id := ids[n - 1]]
  }

  /** Fresh rows are added, each with its own artefact's particulars, and no other row is touched. */
  lemma {:induction false} RowsInserted(evidence: map<EvidenceId, Evidence>, run: Run, ids: seq<EvidenceId>, n: nat)
    requires n <= |ids| == |run.artefacts| && FreshIds(evidence, ids)
    ensures var rows := WithRows(evidence, run, ids, n);
      && (forall id :: id in rows <==> id in evidence || id in ids[..n])
      && (forall id | id in evidence :: rows[id] == evidence[id])
      && (forall i | 0 <= i < n :: ids[i] in rows && rows[ids[i]] == RowFor(run, i))
  {
    if n > 0 {
      var before, rows := WithRows(evidence, run, ids, n - 1), WithRows(evidence, run, ids, n);
      RowsInserted(evidence, run, ids, n - 1);
      assert ids[..n] == ids[..n - 1] + [ids[n - 1]];
      forall id | id in evidence ensures rows[id] == evidence[id] {
        assert id != ids[n - 1] && before[id] == evidence[id];
      }
      forall i | 0 <= i < n ensures ids[i] in rows && rows[ids[i]] == RowFor(run, i) {
        assert i < n - 1 ==> ids[i] != ids[n - 1] && before[ids[i]] == RowFor(run, i);
      }
    }
  }

  /** An engine id maps to the last artefact that carries it, and to nothing if none does. */
  lemma {:induction false} IdMapAnswers(run: Run, ids: seq<EvidenceId>, n: nat, artefact: ArtefactId)
    requires n <= |ids| == |run.artefacts|
    ensures var idOf := IdMap(run, ids, n);
      && (artefact in idOf <==> exists i | 0 <= i < n :: run.artefacts[i].id == artefact)
      && (artefact in idOf ==> StoredAs(run, ids, n, artefact, idOf[artefact]))
  {
    if n > 0 {
      IdMapAnswers(run, ids, n - 1, artefact);
      var idOf := IdMap(run, ids, n);
      if run.artefacts[n - 1].id == artefact {
        assert idOf[artefact] == ids[n - 1];
      } else if artefact in idOf {
        var i :| 0 <= i < n - 1 && run.artefacts[i].id == artefact && idOf[artefact] == ids[i]
          && forall j | i < j < n - 1 :: run.artefacts[j].id != artefact;
      }
    }
  }

  predicate StoredAs(run: Run, ids: seq<EvidenceId>, n: nat, artefact: ArtefactId, id: EvidenceId)
    requires n <= |ids| == |run.artefacts|
  {
    exists i | 0 <= i < n :: run.artefacts[i].id == artefact && id == ids[i]
      && forall j | i < j < n :: run.artefacts[j].id != artefact
  }

  /** The paths a clean-up could not remove, in order. */
  function KeptBack(paths: seq<Path>, removals: nat -> bool, i: nat): (r: seq<Path>)
    requires i <= |paths|
    ensures |r| <= |paths| - i
    decreases |paths| - i
  {
    if i == |paths| then []
    else (if removals(i) then [] else [paths[i]]) + KeptBack(paths, removals, i + 1)
  }

  lemma NextKeptBack(paths: seq<Path>, removals: nat -> bool, i: nat, before: seq<Path>)
    requires i < |paths|
    ensures before + KeptBack(paths, removals, i)
         == (if removals(i) then before else before + [paths[i]]) + KeptBack(paths, removals, i + 1)
  {
  }

  function AfterRemovals(store: set<Path>, paths: seq<Path>, removals: nat -> bool, i: nat): set<Path>
    requires i <= |paths|
    decreases |paths| - i
  {
    if i == |paths| then store
    else AfterRemovals(if removals(i) then store - {paths[i]} else store, paths, removals, i + 1)
  }

  /** The orphan rows that were written for them. */
  function Recorded(abandoned: seq<Path>, records: nat -> bool, i: nat): (r: seq<AuditRow>)
    requires i <= |abandoned|
    ensures forall row | row in r :: row.Orphaned? && row.entity == None && row.path in abandoned
    decreases |abandoned| - i
  {
    if i == |abandoned| then []
    else (if records(i) then [Orphaned(None, abandoned[i])] else []) + Recorded(abandoned, records, i + 1)
  }

  /** The tables as one persist leaves them: committed whole, or rolled back with its leftovers on record. */
  function AfterPersist(t: Tables, run: Run, ids: seq<EvidenceId>, answers: PersistAnswers): Tables
    requires |ids| == |run.artefacts|
  {
    var paths := Paths(run.artefacts);
    var stored := paths[..StoredCount(run, answers, 0)];
    var uploaded := t.(store := t.store + PathSet(stored));
    if |stored| < |run.artefacts| || !answers.begins then uploaded
    else if Persists(run, answers) then
      uploaded.(evidence := WithRows(t.evidence, run, ids, |ids|),
                links := t.links + NewLinks(run, IdMap(run, ids, |ids|)))
    else if !answers.rollsBack then uploaded
    else
      uploaded.(store := AfterRemovals(uploaded.store, paths, answers.removals, 0),
                audit := t.audit + Recorded(KeptBack(paths, answers.removals, 0), answers.records, 0))
  }

  lemma CitedIsMapped(run: Run, ids: seq<EvidenceId>)
    requires |ids| == |run.artefacts|
    ensures forall a :: a in IdMap(run, ids, |ids|) <==> Cites(run, a)
  {
    forall a ensures a in IdMap(run, ids, |ids|) <==> Cites(run, a) {
      IdMapAnswers(run, ids, |ids|, a);
    }
  }

  /** Bytes go exactly where a removal was answered, and no other path is touched. */
  lemma {:induction false} RemovalsRemove(store: set<Path>, paths: seq<Path>, removals: nat -> bool, i: nat, p: Path)
    requires i <= |paths|
    ensures p in AfterRemovals(store, paths, removals, i) <==>
      p in store && forall k | i <= k < |paths| && paths[k] == p :: !removals(k)
    decreases |paths| - i
  {
    if i < |paths| {
      RemovalsRemove(if removals(i) then store - {paths[i]} else store, paths, removals, i + 1, p);
    }
  }

  function StaysBehind(removals: nat -> bool): nat -> bool {
    (k: nat) => !removals(k)
  }

  lemma KeptBackUnfolds(paths: seq<Path>, removals: nat -> bool, i: nat)
    requires i < |paths|
    ensures KeptBack(paths, removals, i)
         == if removals(i) then KeptBack(paths, removals, i + 1) else [paths[i]] + KeptBack(paths, removals, i + 1)
  {
  }

  /** Where the clean-up's note of path `k` is: after as many others as would not go before it. */
  lemma {:induction false} KeptBackAt(paths: seq<Path>, removals: nat -> bool, i: nat, k: nat, at: nat)
    requires i <= k < |paths| && !removals(k) && at == Number(StaysBehind(removals), i, k)
    ensures at < |KeptBack(paths, removals, i)| && KeptBack(paths, removals, i)[at] == paths[k]
    decreases k - i
  {
    KeptBackUnfolds(paths, removals, i);
    if i < k {
      KeptBackAt(paths, removals, i + 1, k, if removals(i) then at else at - 1);
    }
  }

  lemma {:induction false} RecordedAt(abandoned: seq<Path>, records: nat -> bool, i: nat, at: nat)
    requires i <= at < |abandoned| && records(at)
    ensures Orphaned(None, abandoned[at]) in Recorded(abandoned, records, i)
    decreases at - i
  {
    if i < at {
      RecordedAt(abandoned, records, i + 1, at);
    }
  }

  // ----- what a persist promises --------------------------------------------

  /** Every join row has its evidence row, and every evidence row has its bytes. */
  predicate Backed(t: Tables) {
    && (forall link | link in t.links :: link.evidence in t.evidence)
    && (forall id | id in t.evidence :: t.evidence[id].path in t.store)
  }

  /** Storage paths are built from a fresh assessment id. */
  predicate FreshPaths(t: Tables, run: Run) {
    forall id, i | id in t.evidence && 0 <= i < |run.artefacts| :: t.evidence[id].path != run.artefacts[i].path
  }

  /** Whatever the object store and the database answer, no finding cites proof that is not there. */
  lemma PersistKeepsBacked(t: Tables, run: Run, ids: seq<EvidenceId>, answers: PersistAnswers)
    requires |ids| == |run.artefacts| && FreshIds(t.evidence, ids) && Backed(t) && FreshPaths(t, run)
    ensures Backed(AfterPersist(t, run, ids, answers))
  {
    var u := AfterPersist(t, run, ids, answers);
    var paths := Paths(run.artefacts);
    if StoredCount(run, answers, 0) == |run.artefacts| && answers.begins {
      assert paths[..|run.artefacts|] == paths;
      if Persists(run, answers) {
        CommittedIsBacked(t, run, ids, answers);
      } else if answers.rollsBack {
        forall id | id in u.evidence ensures u.evidence[id].path in u.store {
          RemovalsRemove(t.store + PathSet(paths), paths, answers.removals, 0, t.evidence[id].path);
        }
      }
    }
  }

  lemma CommittedIsBacked(t: Tables, run: Run, ids: seq<EvidenceId>, answers: PersistAnswers)
    requires |ids| == |run.artefacts| && FreshIds(t.evidence, ids) && Backed(t)
    requires StoredCount(run, answers, 0) == |run.artefacts| && Persists(run, answers)
    ensures Backed(AfterPersist(t, run, ids, answers))
  {
    var u := AfterPersist(t, run, ids, answers);
    var paths := Paths(run.artefacts);
    assert paths[..|run.artefacts|] == paths;
    RowsInserted(t.evidence, run, ids, |ids|);
    assert ids[..|ids|] == ids;
    forall id | id in u.evidence ensures u.evidence[id].path in u.store {
      if id in ids {
        var i :| 0 <= i < |ids| && ids[i] == id;
        assert u.evidence[ids[i]] == RowFor(run, i) && paths[i] in paths;
      }
    }
    var idOf := IdMap(run, ids, |ids|);
    forall link | link in u.links ensures link.evidence in u.evidence {
      if link !in t.links {
        LinksAreCitations(run, idOf, |run.citations|, 0, link);
        var g, j :| 0 <= g < |run.citations| && 0 <= j < |run.citations[g]| && CitationJoins(run, idOf, g, j, link);
        IdMapAnswers(run, ids, |ids|, run.citations[g][j]);
      }
    }
  }

  /** No two rows share bytes, and nothing the audit log names is a row's: not its path, not its id. */
  predicate Apart(t: Tables) {
    && (forall id, other | id in t.evidence && other in t.evidence && id != other :: t.evidence[id].path != t.evidence[other].path)
    && (forall k, id | 0 <= k < |t.audit| && id in t.evidence :: NotNamed(t.audit[k], id, t.evidence[id].path))
  }

  predicate NotNamed(row: AuditRow, id: EvidenceId, p: Path) {
    (row.Unreadable? || row.path != p) && row.entity != Some(id)
  }

  predicate Sound(t: Tables) {
    Backed(t) && Apart(t)
  }

  /** Ids and paths are minted: distinct, and unknown to the tables and to the log. */
  predicate Minted(t: Tables, run: Run, ids: seq<EvidenceId>) {
    && |ids| == |run.artefacts| && FreshIds(t.evidence, ids) && FreshPaths(t, run)
    && (forall i, j | 0 <= i < j < |run.artefacts| :: run.artefacts[i].path != run.artefacts[j].path)
    && (forall k, i | 0 <= k < |t.audit| && 0 <= i < |ids| :: NotNamed(t.audit[k], ids[i], run.artefacts[i].path))
  }

  lemma PersistKeepsSound(t: Tables, run: Run, ids: seq<EvidenceId>, answers: PersistAnswers)
    requires Minted(t, run, ids) && Sound(t)
    ensures Sound(AfterPersist(t, run, ids, answers))
  {
    PersistKeepsBacked(t, run, ids, answers);
    if StoredCount(run, answers, 0) == |run.artefacts| && answers.begins {
      if Persists(run, answers) {
        CommittedIsApart(t, run, ids, answers);
      } else if answers.rollsBack {
        RolledBackIsApart(t, run, ids, answers);
      }
    }
  }

  lemma CommittedIsApart(t: Tables, run: Run, ids: seq<EvidenceId>, answers: PersistAnswers)
    requires Minted(t, run, ids) && Apart(t)
    ensures Apart(t.(evidence := WithRows(t.evidence, run, ids, |ids|)))
  {
    RowsInserted(t.evidence, run, ids, |ids|);
    assert ids[..|ids|] == ids;
    var rows := WithRows(t.evidence, run, ids, |ids|);
    forall id, other | id in rows && other in rows && id != other ensures rows[id].path != rows[other].path {
      NewRowPath(t, run, ids, id);
      NewRowPath(t, run, ids, other);
    }
    forall k, id | 0 <= k < |t.audit| && id in rows ensures NotNamed(t.audit[k], id, rows[id].path) {
      NewRowPath(t, run, ids, id);
    }
  }

  /** A row is one that was there, or one of the run's own with its own artefact's path. */
  lemma NewRowPath(t: Tables, run: Run, ids: seq<EvidenceId>, id: EvidenceId)
    requires |ids| == |run.artefacts| && FreshIds(t.evidence, ids) && id in WithRows(t.evidence, run, ids, |ids|)
    ensures var row := WithRows(t.evidence, run, ids, |ids|)[id];
      if id in t.evidence then row == t.evidence[id] else exists i :: 0 <= i < |ids| && ids[i] == id && row.path == run.artefacts[i].path
  {
    RowsInserted(t.evidence, run, ids, |ids|);
    assert ids[..|ids|] == ids;
    if id !in t.evidence {
      var i :| 0 <= i < |ids| && ids[i] == id;
      assert WithRows(t.evidence, run, ids, |ids|)[ids[i]] == RowFor(run, i);
    }
  }

  lemma RolledBackIsApart(t: Tables, run: Run, ids: seq<EvidenceId>, answers: PersistAnswers)
    requires Minted(t, run, ids) && Apart(t)
    requires StoredCount(run, answers, 0) == |run.artefacts| && answers.begins && answers.rollsBack && !Persists(run, answers)
    ensures Apart(AfterPersist(t, run, ids, answers))
  {
    var u := AfterPersist(t, run, ids, answers);
    var paths := Paths(run.artefacts);
    var kept := KeptBack(paths, answers.removals, 0);
    KeptBackWasStored(paths, answers.removals, 0);
    forall k, id | 0 <= k < |u.audit| && id in u.evidence ensures NotNamed(u.audit[k], id, u.evidence[id].path) {
      if k >= |t.audit| {
        var row := Recorded(kept, answers.records, 0)[k - |t.audit|];
        assert u.audit[k] == row && row in Recorded(kept, answers.records, 0);
        var i :| 0 <= i < |paths| && paths[i] == row.path;
      }
    }
  }

  lemma {:induction false} KeptBackWasStored(paths: seq<Path>, removals: nat -> bool, i: nat)
    requires i <= |paths|
    ensures forall p | p in KeptBack(paths, removals, i) :: p in paths
    decreases |paths| - i
  {
    if i < |paths| {
      KeptBackWasStored(paths, removals, i + 1);
    }
  }

  /**
  A persist that reached its transaction and lost it leaves the tables as they were. A
  byte it uploaded is still held only if its own removal was refused, and then it is on
  record with its path, unless that very record was refused too.
  */
  lemma RolledBackLeavesATrail(t: Tables, run: Run, ids: seq<EvidenceId>, answers: PersistAnswers, i: nat)
    requires |ids| == |run.artefacts| && i < |run.artefacts|
    requires StoredCount(run, answers, 0) == |run.artefacts| && answers.begins && answers.rollsBack && !Persists(run, answers)
    ensures var u := AfterPersist(t, run, ids, answers);
      && u.evidence == t.evidence && u.links == t.links && u.deletions == t.deletions && t.audit <= u.audit
      && (run.artefacts[i].path in u.store ==>
            && !answers.removals(i)
            && (answers.records(Number(StaysBehind(answers.removals), 0, i)) ==>
                  Orphaned(None, run.artefacts[i].path) in u.audit))
  {
    var u := AfterPersist(t, run, ids, answers);
    var paths := Paths(run.artefacts);
    assert paths[..|run.artefacts|] == paths;
    RemovalsRemove(t.store + PathSet(paths), paths, answers.removals, 0, paths[i]);
    if paths[i] in u.store {
      var at := Number(StaysBehind(answers.removals), 0, i);
      KeptBackAt(paths, answers.removals, 0, i, at);
      if answers.records(at) {
        RecordedAt(KeptBack(paths, answers.removals, 0), answers.records, 0, at);
      }
    }
  }

  predicate FreshIds(evidence: map<EvidenceId, Evidence>, ids: seq<EvidenceId>) {
    (forall i | 0 <= i < |ids| :: ids[i] !in evidence) && forall i, j | 0 <= i < j < |ids| :: ids[i] != ids[j]
  }

  /** The join rows of every finding before `f`, and of the first `k` citations of `f`. */
  function LinksUpTo(run: Run, idOf: map<ArtefactId, EvidenceId>, f: nat, k: nat): (r: set<Link>)
    requires f <= |run.citations| && (k == 0 || (f < |run.citations| && k <= |run.citations[f]|))
    decreases f, k
  {
    if k > 0 then
      var before := LinksUpTo(run, idOf, f, k - 1);
      var cited := run.citations[f][k - 1];
      if cited in idOf then before + {Link(run.assessment, f, idOf[cited])} else before
    else if f > 0 then LinksUpTo(run, idOf, f - 1, |run.citations[f - 1]|)
    else {}
  }

  function NewLinks(run: Run, idOf: map<ArtefactId, EvidenceId>): set<Link> {
    LinksUpTo(run, idOf, |run.citations|, 0)
  }

  /** A finding is joined to a row exactly when it cites an artefact stored as that row. */
  lemma {:induction false} LinksAreCitations(run: Run, idOf: map<ArtefactId, EvidenceId>, f: nat, k: nat, link: Link)
    requires f <= |run.citations| && (k == 0 || (f < |run.citations| && k <= |run.citations[f]|))
    ensures link in LinksUpTo(run, idOf, f, k) <==>
      exists g, j | 0 <= g <= f && g < |run.citations| && 0 <= j < |run.citations[g]| && (g < f || j < k) ::
        CitationJoins(run, idOf, g, j, link)
    decreases f, k
  {
    if k > 0 {
      LinksAreCitations(run, idOf, f, k - 1, link);
      if CitationJoins(run, idOf, f, k - 1, link) {
        assert link in LinksUpTo(run, idOf, f, k);
      }
    } else if f > 0 {
      LinksAreCitations(run, idOf, f - 1, |run.citations[f - 1]|, link);
    }
  }

  predicate CitationJoins(run: Run, idOf: map<ArtefactId, EvidenceId>, g: nat, j: nat, link: Link)
    requires g < |run.citations| && j < |run.citations[g]|
  {
    run.citations[g][j] in idOf && link == Link(run.assessment, g, idOf[run.citations[g][j]])
  }

  // ----- what one persist did, from the run and the answers -----------------

  /** A citation stands when its join row is taken and it names an artefact of the run. */
  lemma CitationFineIff(run: Run, answers: PersistAnswers, f: nat, k: nat)
    requires f < |run.citations| && k < |run.citations[f]|
    ensures CitationFine(run, answers, f, k) <==>
      answers.joins(f, k) && exists i :: 0 <= i < |run.artefacts| && run.artefacts[i].id == run.citations[f][k]
  {
  }

  lemma FindingsFineIff(run: Run, answers: PersistAnswers)
    ensures FindingsFine(run, answers, |run.citations|) <==>
      && (forall f | 0 <= f < |run.citations| :: answers.findings(f))
      && (forall f, k | 0 <= f < |run.citations| && 0 <= k < |run.citations[f]| :: CitationFine(run, answers, f, k))
  {
    if FindingsFine(run, answers, |run.citations|) {
      forall f | 0 <= f < |run.citations|
        ensures answers.findings(f) && forall k | 0 <= k < |run.citations[f]| :: CitationFine(run, answers, f, k)
      {
        assert CitationsFine(run, answers, f, |run.citations[f]|);
      }
    }
  }

  /** A run is written down exactly when every call it makes works and every citation stands. */
  lemma PersistsIff(run: Run, answers: PersistAnswers)
    ensures Persists(run, answers) <==>
      && (forall i | 0 <= i < |run.artefacts| :: run.artefacts[i].id in run.bodies && answers.uploads(i) && answers.inserts(i))
      && answers.begins && answers.authorised == Some(true) && answers.opens && answers.commits
      && (forall f | 0 <= f < |run.citations| :: answers.findings(f))
      && (forall f, k | 0 <= f < |run.citations| && 0 <= k < |run.citations[f]| :: CitationFine(run, answers, f, k))
  {
    FindingsFineIff(run, answers);
    assert forall i | 0 <= i < |run.artefacts| :: Uploads(run, answers, i) <==> run.artefacts[i].id in run.bodies && answers.uploads(i);
    if Persists(run, answers) {
      assert forall i | 0 <= i < |run.artefacts| :: Uploads(run, answers, i) && answers.inserts(i);
    }
  }

  /** The upload loop's error is its first artefact's without a body, or with its upload refused. */
  lemma FirstBadUpload(run: Run, answers: PersistAnswers, error: PersistError, n: nat)
    requires Throws(run, answers, error) && n < |run.artefacts|
    requires forall i | 0 <= i < n :: run.artefacts[i].id in run.bodies && answers.uploads(i)
    ensures run.artefacts[n].id !in run.bodies ==> error == MissingEvidenceBody(run.artefacts[n].id)
    ensures run.artefacts[n].id in run.bodies && !answers.uploads(n) ==> error == UploadFailed
  {
    if !(run.artefacts[n].id in run.bodies && answers.uploads(n)) {
      StoredExactly(run, answers, n, 0);
    }
  }

  /** Past the uploads it is the first of the transaction's, except that one it cannot roll back throws for itself. */
  lemma FirstBadStatement(run: Run, answers: PersistAnswers, error: PersistError)
    requires !Persists(run, answers) && Throws(run, answers, error)
    requires forall i | 0 <= i < |run.artefacts| :: run.artefacts[i].id in run.bodies && answers.uploads(i)
    ensures !answers.begins || !answers.rollsBack || answers.authorised == None ==> error == DatabaseFailed
    ensures answers.begins && answers.rollsBack && answers.authorised == Some(false) ==> error == AuthorisationWithdrawn
    ensures answers.authorised == Some(true) && !(answers.opens && forall i | 0 <= i < |run.artefacts| :: answers.inserts(i)) ==>
      error == DatabaseFailed
    ensures FindingsFine(run, answers, |run.citations|) && answers.authorised == Some(true) ==> error == DatabaseFailed
  {
    StoredExactly(run, answers, |run.artefacts|, 0);
  }

  /** Among the findings it is the first refused, or the first citation that names nothing or whose join is refused. */
  lemma FirstBadFinding(run: Run, answers: PersistAnswers, error: PersistError, f: nat, k: nat)
    requires f < |run.citations| && FindingsFine(run, answers, f) && Throws(run, answers, error)
    requires forall i | 0 <= i < |run.artefacts| :: run.artefacts[i].id in run.bodies && answers.uploads(i) && answers.inserts(i)
    requires answers.begins && answers.rollsBack && answers.authorised == Some(true) && answers.opens
    ensures !answers.findings(f) ==> error == DatabaseFailed
    ensures k < |run.citations[f]| && CitationsFine(run, answers, f, k) ==>
      if forall i | 0 <= i < |run.artefacts| :: run.artefacts[i].id != run.citations[f][k]
      then error == DanglingEvidence(f, run.citations[f][k])
      else !answers.joins(f, k) ==> error == DatabaseFailed
  {
    StoredExactly(run, answers, |run.artefacts|, 0);
    if k < |run.citations[f]| && CitationsFine(run, answers, f, k) && !CitationFine(run, answers, f, k) {
      OnlyError(run, answers, error, f);
      var j :| 0 <= j < |run.citations[f]| && CitationsFine(run, answers, f, j) && !CitationFine(run, answers, f, j)
        && error == CitationError(run, f, run.citations[f][j]);
      assert j == k;
    } else if !answers.findings(f) {
      OnlyError(run, answers, error, f);
    }
  }

  lemma OnlyError(run: Run, answers: PersistAnswers, error: PersistError, f: nat)
    requires f < |run.citations| && FindingsFine(run, answers, f) && TransactionError(run, answers, error)
    requires !CitationsFine(run, answers, f, |run.citations[f]|)
    requires answers.authorised == Some(true) && answers.opens && Inserts(run, answers)
    ensures
      if !answers.findings(f) then error == DatabaseFailed
      else exists k | 0 <= k < |run.citations[f]| ::
        && CitationsFine(run, answers, f, k) && !CitationFine(run, answers, f, k)
        && error == CitationError(run, f, run.citations[f][k])
  {
    assert !FindingsFine(run, answers, |run.citations|);
    var g :| 0 <= g < |run.citations| && FindingsFine(run, answers, g) &&
      if !answers.findings(g) then error == DatabaseFailed
      else exists k | 0 <= k < |run.citations[g]| ::
        && CitationsFine(run, answers, g, k) && !CitationFine(run, answers, g, k)
        && error == CitationError(run, g, run.citations[g][k]);
    assert !CitationsFine(run, answers, g, |run.citations[g]|);
    assert g == f;
  }

  /** What a persist that is written down adds: each artefact's own row, its own path, and a join for each citation. */
  lemma PersistedIsWritten(t: Tables, run: Run, ids: seq<EvidenceId>, answers: PersistAnswers)
    requires |ids| == |run.artefacts| && FreshIds(t.evidence, ids) && Persists(run, answers)
    ensures var u := AfterPersist(t, run, ids, answers);
      && u.audit == t.audit && u.deletions == t.deletions
      && (forall p :: p in u.store <==> p in t.store || exists i | 0 <= i < |run.artefacts| :: run.artefacts[i].path == p)
      && (forall id :: id in u.evidence <==> id in t.evidence || id in ids)
      && (forall id | id in t.evidence :: u.evidence[id] == t.evidence[id])
      && (forall i | 0 <= i < |ids| ::
            var row, artefact := u.evidence[ids[i]], run.artefacts[i];
            && row.assessment == run.assessment && row.path == artefact.path
            && row.sha256 == artefact.sha256 && row.retentionUntil == artefact.retentionUntil)
  {
    var paths := Paths(run.artefacts);
    assert StoredCount(run, answers, 0) == |run.artefacts| && paths[..|run.artefacts|] == paths;
    RowsInserted(t.evidence, run, ids, |ids|);
    assert ids[..|ids|] == ids;
    forall p ensures p in PathSet(paths) <==> exists i | 0 <= i < |run.artefacts| :: run.artefacts[i].path == p {
      if i :| 0 <= i < |run.artefacts| && run.artefacts[i].path == p {
        assert paths[i] == p;
      }
    }
  }

  /** The last artefact that carries the id a finding cites. */
  predicate Answers(run: Run, cited: ArtefactId, i: nat)
    requires i < |run.artefacts|
  {
    run.artefacts[i].id == cited && forall j | i < j < |run.artefacts| :: run.artefacts[j].id != cited
  }

  lemma PersistedLinks(t: Tables, run: Run, ids: seq<EvidenceId>, answers: PersistAnswers, link: Link)
    requires |ids| == |run.artefacts| && Persists(run, answers)
    ensures link in AfterPersist(t, run, ids, answers).links <==>
      || link in t.links
      || exists f, k, i | 0 <= f < |run.citations| && 0 <= k < |run.citations[f]| && 0 <= i < |run.artefacts| ::
           Answers(run, run.citations[f][k], i) && link == Link(run.assessment, f, ids[i])
  {
    var idOf := IdMap(run, ids, |ids|);
    LinksAreCitations(run, idOf, |run.citations|, 0, link);
    forall f, k | 0 <= f < |run.citations| && 0 <= k < |run.citations[f]|
      ensures CitationJoins(run, idOf, f, k, link) <==>
        exists i | 0 <= i < |run.artefacts| :: Answers(run, run.citations[f][k], i) && link == Link(run.assessment, f, ids[i])
    {
      LastAnswers(run, ids, run.citations[f][k]);
    }
  }

  lemma LastAnswers(run: Run, ids: seq<EvidenceId>, cited: ArtefactId)
    requires |ids| == |run.artefacts|
    ensures var idOf := IdMap(run, ids, |ids|);
      && (cited in idOf <==> exists i | 0 <= i < |run.artefacts| :: Answers(run, cited, i))
      && forall i | 0 <= i < |run.artefacts| && Answers(run, cited, i) :: cited in idOf && idOf[cited] == ids[i]
  {
    var idOf := IdMap(run, ids, |ids|);
    IdMapAnswers(run, ids, |ids|, cited);
    if cited in idOf {
      var i :| 0 <= i < |ids| && run.artefacts[i].id == cited && idOf[cited] == ids[i]
        && forall j | i < j < |ids| :: run.artefacts[j].id != cited;
      assert Answers(run, cited, i);
      forall j | 0 <= j < |run.artefacts| && Answers(run, cited, j) ensures j == i {}
    }
  }

  /** A persist that is not written down changes no row, and stores what it uploaded before its first bad upload. */
  lemma UnpersistedChangesNoRow(t: Tables, run: Run, ids: seq<EvidenceId>, answers: PersistAnswers, n: nat)
    requires |ids| == |run.artefacts| && n <= |run.artefacts| && !Persists(run, answers)
    requires forall i | 0 <= i < n :: run.artefacts[i].id in run.bodies && answers.uploads(i)
    requires n < |run.artefacts| ==> !(run.artefacts[n].id in run.bodies && answers.uploads(n))
    ensures var u := AfterPersist(t, run, ids, answers);
      && u.evidence == t.evidence && u.links == t.links && u.deletions == t.deletions
      && (n < |run.artefacts| || !answers.begins || !answers.rollsBack ==>
            && u.audit == t.audit
            && forall p :: p in u.store <==> p in t.store || exists i | 0 <= i < n :: run.artefacts[i].path == p)
      && (n == |run.artefacts| && answers.begins && answers.rollsBack ==>
            forall p :: p in u.store <==>
              && (p in t.store || exists i | 0 <= i < n :: run.artefacts[i].path == p)
              && forall i | 0 <= i < n && run.artefacts[i].path == p :: !answers.removals(i))
  {
    var paths := Paths(run.artefacts);
    StoredExactly(run, answers, n, 0);
    forall p ensures p in PathSet(paths[..n]) <==> exists i | 0 <= i < n :: run.artefacts[i].path == p {
      if i :| 0 <= i < n && run.artefacts[i].path == p {
        assert paths[..n][i] == p;
      }
    }
    assert paths[..|run.artefacts|] == paths;
    if n == |run.artefacts| {
      forall p {
        RemovalsRemove(t.store + PathSet(paths), paths, answers.removals, 0, p);
      }
    }
  }

  lemma {:induction false} StoredExactly(run: Run, answers: PersistAnswers, n: nat, i: nat)
    requires i <= n <= |run.artefacts|
    requires forall k | 0 <= k < n :: run.artefacts[k].id in run.bodies && answers.uploads(k)
    requires n < |run.artefacts| ==> !(run.artefacts[n].id in run.bodies && answers.uploads(n))
    ensures StoredCount(run, answers, i) == n
    decreases n - i
  {
    if i < n {
      StoredExactly(run, answers, n, i + 1);
    }
  }

  /** The path stayed, and a note of it was taken. */
  function Noted(answers: PersistAnswers): nat -> bool {
    (k: nat) => !answers.removals(k) && answers.records(Number(StaysBehind(answers.removals), 0, k))
  }

  /** The log of a rolled-back persist gains one row for each path that stayed and was noted, in the order they were stored. */
  lemma RolledBackLogs(t: Tables, run: Run, ids: seq<EvidenceId>, answers: PersistAnswers)
    requires |ids| == |run.artefacts| && !Persists(run, answers) && answers.begins && answers.rollsBack
    requires forall i | 0 <= i < |run.artefacts| :: run.artefacts[i].id in run.bodies && answers.uploads(i)
    ensures var u := AfterPersist(t, run, ids, answers);
      && t.audit <= u.audit && |u.audit| == |t.audit| + Number(Noted(answers), 0, |run.artefacts|)
      && forall i | 0 <= i < |run.artefacts| && Noted(answers)(i) ::
           Number(Noted(answers), 0, i) < |u.audit| - |t.audit|
           && u.audit[|t.audit| + Number(Noted(answers), 0, i)] == Orphaned(None, run.artefacts[i].path)
  {
    var paths := Paths(run.artefacts);
    StoredExactly(run, answers, |run.artefacts|, 0);
    assert paths[..|paths|] == paths;
    RecordsInOrder(paths, answers, 0, 0, KeptBack(paths, answers.removals, 0));
  }

  lemma {:induction false} RecordsInOrder(paths: seq<Path>, answers: PersistAnswers, i: nat, kept: nat, all: seq<Path>)
    requires i <= |paths| && kept == Number(StaysBehind(answers.removals), 0, i)
    requires kept <= |all| && all[kept..] == KeptBack(paths, answers.removals, i)
    ensures var rows := Recorded(all, answers.records, kept);
      && |rows| == Number(Noted(answers), i, |paths|)
      && forall k | i <= k < |paths| && Noted(answers)(k) ::
           Number(Noted(answers), i, k) < |rows| && rows[Number(Noted(answers), i, k)] == Orphaned(None, paths[k])
    decreases |paths| - i
  {
    if i < |paths| {
      NumberTo(StaysBehind(answers.removals), 0, i);
      KeptBackUnfolds(paths, answers.removals, i);
      if answers.removals(i) {
        RecordsInOrder(paths, answers, i + 1, kept, all);
      } else {
        assert all[kept] == paths[i] && all[kept + 1..] == KeptBack(paths, answers.removals, i + 1);
        RecordsInOrder(paths, answers, i + 1, kept + 1, all);
        var rest := Recorded(all, answers.records, kept + 1);
        assert Recorded(all, answers.records, kept) == (if answers.records(kept) then [Orphaned(None, paths[i])] else []) + rest;
      }
    }
  }

  class EvidenceTables {
    var store: set<Path>
    var evidence: map<EvidenceId, Evidence>
    var links: set<Link>
    var deletions: seq<Deletion>
    var audit: seq<AuditRow>

    ghost function Value(): Tables
      reads this
    {
      Tables(store, evidence, links, deletions, audit)
    }

    /** The upload loop: it throws where it stands, and what it has stored stays. */
    method UploadAll(run: Run, answers: PersistAnswers) returns (stored: seq<Path>, error: Option<PersistError>)
      modifies this`store
      ensures stored == Paths(run.artefacts)[..StoredCount(run, answers, 0)]
      ensures store == old(store) + PathSet(stored)
      ensures error == None <==> |stored| == |run.artefacts|
      ensures error.Some? ==> |stored| < |run.artefacts| && error.value == UploadError(run, |stored|)
    {
      stored, error := [], None;
      for i := 0 to |run.artefacts|
        invariant stored == Paths(run.artefacts)[..i]
        invariant StoredCount(run, answers, 0) == StoredCount(run, answers, i)
        invariant store == old(store) + PathSet(stored)
      {
        var artefact := run.artefacts[i];
        if artefact.id !in run.bodies {
          return stored, Some(MissingEvidenceBody(artefact.id));
        }
        if !answers.uploads(i) {
          return stored, Some(UploadFailed);
        }
        store := store + {artefact.path};
        stored := stored + [artefact.path];
      }
    }

    /** The evidence rows, on the transaction's own copy, with the map from engine ids to row ids. */
    method InsertEvidence(run: Run, answers: PersistAnswers, ids: seq<EvidenceId>)
      returns (rows: map<EvidenceId, Evidence>, idOf: map<ArtefactId, EvidenceId>, failed: bool)
      requires |ids| == |run.artefacts|
      ensures failed <==> exists i | 0 <= i < |ids| :: !answers.inserts(i)
      ensures !failed ==> rows == WithRows(evidence, run, ids, |ids|) && idOf == IdMap(run, ids, |ids|)
    {
      rows, idOf, failed := evidence, map[], false;
      for i := 0 to |run.artefacts|
        invariant forall j | 0 <= j < i :: answers.inserts(j)
        invariant rows == WithRows(evidence, run, ids, i) && idOf == IdMap(run, ids, i)
      {
        if !answers.inserts(i) {
          failed := true;
          return;
        }
        var artefact := run.artefacts[i];
        rows := rows[ids[i] := Evidence(run.assessment, artefact.sha256, artefact.retentionUntil, artefact.path)];
        idOf := idOf[artefact.id := ids[i]];
      }
    }

    /** The findings and their join rows: the first citation of nothing ends it, as does a refused statement. */
    method LinkFindings(run: Run, answers: PersistAnswers, idOf: map<ArtefactId, EvidenceId>)
      returns (joined: set<Link>, error: Option<PersistError>)
      requires forall a :: a in idOf <==> Cites(run, a)
      ensures error == None <==> FindingsFine(run, answers, |run.citations|)
      ensures error == None ==> joined == links + NewLinks(run, idOf)
      ensures error.Some? ==> FindingError(run, answers, error.value)
    {
      joined, error := links, None;
      for f := 0 to |run.citations|
        invariant FindingsFine(run, answers, f)
        invariant joined == links + LinksUpTo(run, idOf, f, 0)
      {
        if !answers.findings(f) {
          assert !CitationsFine(run, answers, f, |run.citations[f]|);
          return joined, Some(DatabaseFailed);
        }
        for k := 0 to |run.citations[f]|
          invariant CitationsFine(run, answers, f, k)
          invariant joined == links + LinksUpTo(run, idOf, f, k)
        {
          var cited := run.citations[f][k];
          assert CitationFine(run, answers, f, k) <==> Cites(run, cited) && answers.joins(f, k);
          if cited !in idOf {
            assert CitationError(run, f, cited) == DanglingEvidence(f, cited);
            return joined, Some(DanglingEvidence(f, cited));
          }
          if !answers.joins(f, k) {
            assert CitationError(run, f, cited) == DatabaseFailed;
            return joined, Some(DatabaseFailed);
          }
          joined := joined + {Link(run.assessment, f, idOf[cited])};
        }
      }
    }

    method RemoveAll(stored: seq<Path>, answers: PersistAnswers) returns (abandoned: seq<Path>)
      modifies this`store
      ensures store == AfterRemovals(old(store), stored, answers.removals, 0)
      ensures abandoned == KeptBack(stored, answers.removals, 0)
    {
      abandoned := [];
      for i := 0 to |stored|
        invariant AfterRemovals(store, stored, answers.removals, i) == AfterRemovals(old(store), stored, answers.removals, 0)
        invariant abandoned + KeptBack(stored, answers.removals, i) == KeptBack(stored, answers.removals, 0)
      {
        ghost var before := abandoned;
        if answers.removals(i) {
          store := store - {stored[i]};
        } else {
          abandoned := abandoned + [stored[i]];
        }
        NextKeptBack(stored, answers.removals, i, before);
      }
    }

    method RecordAll(abandoned: seq<Path>, answers: PersistAnswers)
      modifies this`audit
      ensures audit == old(audit) + Recorded(abandoned, answers.records, 0)
    {
      for i := 0 to |abandoned|
        invariant audit + Recorded(abandoned, answers.records, i) == old(audit) + Recorded(abandoned, answers.records, 0)
      {
        if answers.records(i) {
          audit := audit + [Orphaned(None, abandoned[i])];
        }
      }
    }

    /** After a rollback: every stored path is removed, or else put on record for the retry pass. */
    method CleanUp(stored: seq<Path>, answers: PersistAnswers)
      modifies this`store, this`audit
      ensures store == AfterRemovals(old(store), stored, answers.removals, 0)
      ensures audit == old(audit) + Recorded(KeptBack(stored, answers.removals, 0), answers.records, 0)
    {
      var abandoned := RemoveAll(stored, answers);
      RecordAll(abandoned, answers);
    }

    /** The transaction: on any error the tables are as they were. */
    method Transact(run: Run, ids: seq<EvidenceId>, answers: PersistAnswers) returns (error: Option<PersistError>)
      requires |ids| == |run.artefacts|
      modifies this`evidence, this`links
      ensures error == None <==> Commits(run, answers)
      ensures error == None ==>
        evidence == WithRows(old(evidence), run, ids, |ids|)
        && links == old(links) + NewLinks(run, IdMap(run, ids, |ids|))
      ensures error.Some? ==> evidence == old(evidence) && links == old(links) && TransactionError(run, answers, error.value)
    {
      if answers.authorised.None? {
        return Some(DatabaseFailed);
      }
      if !answers.authorised.value {
        return Some(AuthorisationWithdrawn);
      }
      if !answers.opens {
        return Some(DatabaseFailed);
      }
      var rows, idOf, failed := InsertEvidence(run, answers, ids);
      if failed {
        return Some(DatabaseFailed);
      }
      CitedIsMapped(run, ids);
      var joined, refused := LinkFindings(run, answers, idOf);
      if refused.Some? {
        return refused;
      }
      if !answers.commits {
        return Some(DatabaseFailed);
      }
      evidence, links := rows, joined;
      return None;
    }

    /** The bytes first, then the rows that point at them, all or none. */
    method PersistOutcome(run: Run, ids: seq<EvidenceId>, answers: PersistAnswers) returns (result: PersistResult)
      requires |ids| == |run.artefacts|
      modifies this
      ensures result.Persisted? <==> Persists(run, answers)
      ensures Value() == AfterPersist(old(Value()), run, ids, answers)
      ensures result.Persisted? ==> result.assessment == run.assessment
      ensures result.Threw? ==> Throws(run, answers, result.error)
    {
      var stored, failure := UploadAll(run, answers);
      if failure.Some? {
        return Threw(failure.value);
      }
      assert stored == Paths(run.artefacts);
      if !answers.begins {
        return Threw(DatabaseFailed);
      }
      var error := Transact(run, ids, answers);
      if error.Some? {
        if !answers.rollsBack {
          return Threw(DatabaseFailed);
        }
        CleanUp(stored, answers);
        return Threw(error.value);
      }
      return Persisted(run.assessment);
    }
  }
}
