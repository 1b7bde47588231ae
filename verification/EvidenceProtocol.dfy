/**
Evidence as two stores that can each fail: bytes in an object store, rows in a
database, and an append-only audit log between them. Any number of persists and
retention sweeps interleave, one call at a time, and any of them may die.
*/
module EvidenceProtocol {
  import opened Options
  import opened OrphanAudit

  type ActorId = nat

  datatype Due = Due(id: EvidenceId, path: Path)

  /** Where one call to `persistOutcome` or `sweepRetention` has got to. */
  datatype Actor =
    | Uploading(todo: seq<Path>, stored: seq<Path>)
    | InTransaction(stored: seq<Path>)
    | CleaningUp(todo: seq<Path>, abandoned: seq<Path>)
    | RecordingAbandoned(abandoned: seq<Path>)
    | Deleting(due: seq<Due>)
    | Removing(at: Due, due: seq<Due>)
    | RecordingOrphan(at: Due, due: seq<Due>)
    | Retrying(orphans: seq<AuditRow>)
    | RecordingRecovery(orphan: AuditRow, orphans: seq<AuditRow>)

  /** History, for the proofs alone: a path is one persist's, then one row's, then nobody's. */
  datatype Stage = Prospective(actor: ActorId) | Cited(id: EvidenceId) | Spent

  /** `stage` and `pathOf` are history; `begun` is the paths whose persist reached its transaction. */
  datatype World = World(
    store: set<Path>,
    rows: map<EvidenceId, Path>,
    audit: seq<AuditRow>,
    actors: map<ActorId, Actor>,
    stage: map<Path, Stage>,
    pathOf: map<EvidenceId, Path>,
    begun: set<Path>)

  const START: World := World({}, map[], [], map[], map[], map[], {})

  // ----- the steps ----------------------------------------------------------

  /**
  One call, or one thing that happens to whoever was making it. `SweepFails` is a sweep's own `begin`,
  `rollback`, orphan read or count throwing, which ends the sweep and not its process.
  */
  datatype Move =
    | BeginPersist(todo: seq<Path>)
    | Put(works: bool)
    | BeginTransaction
    | BeginFails
    | Commit(ids: seq<EvidenceId>)
    | Rollback
    | RollbackFails
    | CleanOne(works: bool)
    | CleanedUp
    | RecordAbandoned(works: bool)
    | BeginSweep(due: seq<Due>)
    | DeleteRow(works: bool)
    | RemoveBytes(works: bool)
    | RecordOrphan(works: bool)
    | BeginRetry(orphans: seq<AuditRow>)
    | RetryRemove(works: bool)
    | RecordRecovery(works: bool)
    | SweepFails
    | Finish
    | Die

  datatype Step = Step(a: ActorId, move: Move)

  predicate NoRepeats(s: seq<nat>) {
    forall i, j | 0 <= i < j < |s| :: s[i] != s[j]
  }

  /** Paths are built from a fresh id, and rows get fresh ids. */
  predicate Enabled(w: World, step: Step) {
    match step.move
    case BeginPersist(todo) => step.a !in w.actors && NoRepeats(todo) && forall i | 0 <= i < |todo| :: todo[i] !in w.stage
    case BeginSweep(due) => step.a !in w.actors && forall i | 0 <= i < |due| :: due[i].id in w.rows && w.rows[due[i].id] == due[i].path
    case _ => step.a in w.actors && MayMove(w, step.move, w.actors[step.a])
  }

  predicate MayMove(w: World, move: Move, actor: Actor) {
    match move
    case Put(_) => actor.Uploading? && actor.todo != []
    case BeginTransaction => actor.Uploading? && actor.todo == []
    case BeginFails => actor.Uploading? && actor.todo == []
    case Commit(ids) =>
      actor.InTransaction? && |ids| == |actor.stored| && NoRepeats(ids) && forall i | 0 <= i < |ids| :: ids[i] !in w.pathOf
    case Rollback => actor.InTransaction?
    case RollbackFails => actor.InTransaction?
    case CleanOne(_) => actor.CleaningUp? && actor.todo != []
    case CleanedUp => actor.CleaningUp? && actor.todo == []
    case RecordAbandoned(_) => actor.RecordingAbandoned? && actor.abandoned != []
    case DeleteRow(_) => actor.Deleting? && actor.due != []
    case RemoveBytes(_) => actor.Removing?
    case RecordOrphan(_) => actor.RecordingOrphan?
    case BeginRetry(orphans) =>
      actor.Deleting? && actor.due == []
      && forall i | 0 <= i < |orphans| :: orphans[i] in w.audit && Unresolved(w.audit, orphans[i])
    case RetryRemove(_) => actor.Retrying? && actor.orphans != [] && !actor.orphans[0].Unreadable?
    case RecordRecovery(_) => actor.RecordingRecovery? && !actor.orphan.Unreadable?
    case Finish => (actor.RecordingAbandoned? && actor.abandoned == []) || (actor.Retrying? && actor.orphans == [])
    case SweepFails => actor.Deleting? || actor.Retrying?
    case Die => true
    case _ => false
  }

  function Become(w: World, a: ActorId, actor: Actor): World {
    w.(actors := w.actors[a := actor])
  }

  function Gone(w: World, a: ActorId): World {
    w.(actors := w.actors - {a})
  }

  function Without(w: World, p: Path): World {
    w.(store := w.store - {p})
  }

  function Noted(w: World, row: AuditRow, works: bool): World {
    if works then w.(audit := w.audit + [row]) else w
  }

  function SetAll(stage: map<Path, Stage>, paths: seq<Path>, to: Stage): (r: map<Path, Stage>)
    ensures forall p :: p in r <==> p in stage || p in paths
    ensures forall p | p in r :: r[p] == if p in paths then to else stage[p]
  {
    map p | p in stage.Keys + (set q | q in paths) :: if p in paths then to else stage[p]
  }

  function Index(s: seq<nat>, x: nat): (k: nat)
    requires x in s
    ensures k < |s| && s[k] == x
  {
    if s[0] == x then 0 else 1 + Index(s[1..], x)
  }

  function AddRows(rows: map<EvidenceId, Path>, ids: seq<EvidenceId>, paths: seq<Path>): (r: map<EvidenceId, Path>)
    requires |ids| == |paths|
    ensures forall id :: id in r <==> id in rows || id in ids
    ensures forall id | id in r && id !in ids :: r[id] == rows[id]
    ensures NoRepeats(ids) ==> forall i | 0 <= i < |ids| :: r[ids[i]] == paths[i]
  {
    map id | id in rows.Keys + (set x | x in ids) :: if id in ids then paths[Index(ids, id)] else rows[id]
  }

  function CiteAll(stage: map<Path, Stage>, ids: seq<EvidenceId>, paths: seq<Path>): (r: map<Path, Stage>)
    requires |ids| == |paths|
    ensures forall p :: p in r <==> p in stage || p in paths
    ensures forall p | p in r && p !in paths :: r[p] == stage[p]
    ensures NoRepeats(paths) ==> forall i | 0 <= i < |ids| :: r[paths[i]] == Cited(ids[i])
  {
    map p | p in stage.Keys + (set x | x in paths) :: if p in paths then Cited(ids[Index(paths, p)]) else stage[p]
  }

  // ----- what each call does ------------------------------------------------

  function Uploaded(w: World, a: ActorId, todo: seq<Path>, stored: seq<Path>): World
    requires todo != []
  {
    Become(w.(store := w.store + {todo[0]}), a, Uploading(todo[1..], stored + [todo[0]]))
  }

  /** Outside the handler, or where the handler itself throws: what is stored stays, and nothing records it. */
  function Abandon(w: World, a: ActorId, paths: seq<Path>): World {
    Gone(w.(stage := SetAll(w.stage, paths, Spent)), a)
  }

  function Committed(w: World, a: ActorId, stored: seq<Path>, ids: seq<EvidenceId>): World
    requires |ids| == |stored|
  {
    Gone(w.(rows := AddRows(w.rows, ids, stored), pathOf := AddRows(w.pathOf, ids, stored),
            stage := CiteAll(w.stage, ids, stored)), a)
  }

  function RolledBack(w: World, a: ActorId, stored: seq<Path>): World {
    Become(w.(stage := SetAll(w.stage, stored, Spent)), a, CleaningUp(stored, []))
  }

  function Cleaned(w: World, a: ActorId, todo: seq<Path>, abandoned: seq<Path>, works: bool): World
    requires todo != []
  {
    if works then Become(Without(w, todo[0]), a, CleaningUp(todo[1..], abandoned))
    else Become(w, a, CleaningUp(todo[1..], abandoned + [todo[0]]))
  }

  function RowDeleted(w: World, a: ActorId, due: seq<Due>): World
    requires due != []
  {
    Become(w.(rows := w.rows - {due[0].id}, stage := SetAll(w.stage, [due[0].path], Spent)), a, Removing(due[0], due[1..]))
  }

  /** Paths a dead persist leaves with nobody to cite them. */
  function Left(actor: Actor): seq<Path> {
    match actor
    case Uploading(todo, stored) => todo + stored
    case InTransaction(stored) => stored
    case _ => []
  }

  function Apply(w: World, step: Step): World
    requires Enabled(w, step)
  {
    var a := step.a;
    match step.move
    case BeginPersist(todo) => Become(w.(stage := SetAll(w.stage, todo, Prospective(a))), a, Uploading(todo, []))
    case BeginSweep(due) => Become(w, a, Deleting(due))
    case _ => Moved(w, a, step.move, w.actors[a])
  }

  /** A persist's calls, as against a sweep's. */
  predicate OfPersist(actor: Actor) {
    actor.Uploading? || actor.InTransaction? || actor.CleaningUp? || actor.RecordingAbandoned?
  }

  function PersistMoved(w: World, a: ActorId, move: Move, actor: Actor): World
    requires MayMove(w, move, actor) && OfPersist(actor)
  {
    match move
    case Put(works) =>
      if works then Uploaded(w, a, actor.todo, actor.stored) else Abandon(w, a, actor.todo + actor.stored)
    case BeginTransaction =>
      Become(w.(begun := w.begun + set p | p in actor.stored), a, InTransaction(actor.stored))
    case BeginFails => Abandon(w, a, actor.stored)
    case Commit(ids) => Committed(w, a, actor.stored, ids)
    case Rollback => RolledBack(w, a, actor.stored)
    case RollbackFails => Abandon(w, a, actor.stored)
    case CleanOne(works) => Cleaned(w, a, actor.todo, actor.abandoned, works)
    case CleanedUp => Become(w, a, RecordingAbandoned(actor.abandoned))
    case RecordAbandoned(works) =>
      Become(Noted(w, Orphaned(None, actor.abandoned[0]), works), a, RecordingAbandoned(actor.abandoned[1..]))
    case Die => Abandon(w, a, Left(actor))
    case _ => Gone(w, a)
  }

  function SweepMoved(w: World, a: ActorId, move: Move, actor: Actor): World
    requires MayMove(w, move, actor) && !OfPersist(actor)
  {
    match move
    case DeleteRow(works) => if works then RowDeleted(w, a, actor.due) else Become(w, a, Deleting(actor.due[1..]))
    case RemoveBytes(works) =>
      if works then Become(Without(w, actor.at.path), a, Deleting(actor.due))
      else Become(w, a, RecordingOrphan(actor.at, actor.due))
    case RecordOrphan(works) =>
      Become(Noted(w, Orphaned(Some(actor.at.id), actor.at.path), works), a, Deleting(actor.due))
    case BeginRetry(orphans) => Become(w, a, Retrying(orphans))
    case RetryRemove(works) =>
      if works then
        Become(Without(w, actor.orphans[0].path), a, RecordingRecovery(actor.orphans[0], actor.orphans[1..]))
      else Become(w, a, Retrying(actor.orphans[1..]))
    case RecordRecovery(works) =>
      Become(Noted(w, RemovedLater(actor.orphan.entity, actor.orphan.path), works), a, Retrying(actor.orphans))
    case _ => Gone(w, a)
  }

  function Moved(w: World, a: ActorId, move: Move, actor: Actor): World
    requires MayMove(w, move, actor)
  {
    if OfPersist(actor) then PersistMoved(w, a, move, actor) else SweepMoved(w, a, move, actor)
  }

  // ----- what every state keeps ---------------------------------------------

  predicate At(w: World, p: Path, s: Stage) {
    p in w.stage && w.stage[p] == s
  }

  predicate AllAt(w: World, paths: seq<Path>, s: Stage) {
    forall i | 0 <= i < |paths| :: At(w, paths[i], s)
  }

  /** The evidence row an orphan names, if it names one, was the row of that path. */
  predicate NamesItsRow(w: World, entity: Option<EvidenceId>, p: Path) {
    entity.Some? ==> entity.value in w.pathOf && w.pathOf[entity.value] == p
  }

  predicate DueFine(w: World, d: Due) {
    d.id in w.pathOf && w.pathOf[d.id] == d.path && (At(w, d.path, Cited(d.id)) || At(w, d.path, Spent))
  }

  /** Every row this code writes carries its path. */
  predicate AuditFine(w: World, row: AuditRow) {
    && !row.Unreadable?
    && At(w, row.path, Spent) && NamesItsRow(w, row.entity, row.path) && (row.RemovedLater? ==> row.path !in w.store)
  }

  predicate ActorFine(w: World, a: ActorId, actor: Actor) {
    match actor
    case Uploading(todo, stored) =>
      AllAt(w, todo, Prospective(a)) && AllAt(w, stored, Prospective(a))
      && NoRepeats(stored + todo) && forall i | 0 <= i < |stored| :: stored[i] in w.store
    case InTransaction(stored) =>
      AllAt(w, stored, Prospective(a)) && NoRepeats(stored) && forall i | 0 <= i < |stored| :: stored[i] in w.store
    case CleaningUp(todo, abandoned) => AllAt(w, todo, Spent) && AllAt(w, abandoned, Spent)
    case RecordingAbandoned(abandoned) => AllAt(w, abandoned, Spent)
    case Deleting(due) => forall i | 0 <= i < |due| :: DueFine(w, due[i])
    case Removing(at, due) => DueFine(w, at) && At(w, at.path, Spent) && forall i | 0 <= i < |due| :: DueFine(w, due[i])
    case RecordingOrphan(at, due) => DueFine(w, at) && At(w, at.path, Spent) && forall i | 0 <= i < |due| :: DueFine(w, due[i])
    case Retrying(orphans) => forall i | 0 <= i < |orphans| :: AuditFine(w, orphans[i])
    case RecordingRecovery(orphan, orphans) =>
      AuditFine(w, orphan) && orphan.path !in w.store && forall i | 0 <= i < |orphans| :: AuditFine(w, orphans[i])
  }

  predicate RowFine(w: World, id: EvidenceId)
    requires id in w.rows
  {
    id in w.pathOf && w.pathOf[id] == w.rows[id] && At(w, w.rows[id], Cited(id)) && w.rows[id] in w.store
  }

  predicate Inv(w: World) {
    && (forall id | id in w.rows :: RowFine(w, id))
    && (forall a | a in w.actors :: ActorFine(w, a, w.actors[a]))
    && (forall row | row in w.audit :: AuditFine(w, row))
  }

  // ----- one step keeps it --------------------------------------------------

  /** A path moves only forward, only its own persist moves it out of its hands, and bytes go only when it is spent. */
  ghost predicate Forward(w: World, t: World, a: ActorId) {
    && (forall p | p in w.stage ::
          && p in t.stage
          && (w.stage[p] == Spent ==> t.stage[p] == Spent)
          && (w.stage[p].Cited? ==> t.stage[p] == w.stage[p] || t.stage[p] == Spent)
          && (w.stage[p].Prospective? && w.stage[p].actor != a ==> t.stage[p] == w.stage[p]))
    && (forall id | id in w.pathOf :: id in t.pathOf && t.pathOf[id] == w.pathOf[id])
    && (forall p | p in w.store && p !in t.store :: At(w, p, Spent))
    && (forall p | p in t.store && p !in w.store :: At(w, p, Prospective(a)))
  }

  predicate OthersStand(w: World, t: World, a: ActorId) {
    w.actors - {a} == t.actors - {a}
  }

  /** Rows only go, and a row that stays is cited as it was. */
  predicate RowsOnlyGo(w: World, t: World) {
    forall id | id in t.rows ::
      id in w.rows && t.rows[id] == w.rows[id] && At(t, w.rows[id], Cited(id))
  }

  predicate AuditGrows(w: World, t: World) {
    w.audit <= t.audit && forall i | |w.audit| <= i < |t.audit| :: AuditFine(t, t.audit[i])
  }

  ghost predicate Keeps(w: World, t: World, a: ActorId) {
    && Forward(w, t, a) && OthersStand(w, t, a)
    && (RowsOnlyGo(w, t) || forall id | id in t.rows :: RowFine(t, id))
    && AuditGrows(w, t)
    && (a in t.actors ==> ActorFine(t, a, t.actors[a]))
  }

  lemma KeepingKeepsInv(w: World, t: World, a: ActorId)
    requires Inv(w) && Keeps(w, t, a)
    ensures Inv(t)
  {
    forall id | id in t.rows ensures RowFine(t, id) {
      if RowsOnlyGo(w, t) {
        assert RowFine(w, id);
      }
    }
    forall b | b in t.actors ensures ActorFine(t, b, t.actors[b]) {
      if b != a {
        assert b in t.actors - {a} && (t.actors - {a})[b] == (w.actors - {a})[b];
        assert ActorFine(w, b, w.actors[b]);
        FineCarries(w, t, a, b, w.actors[b]);
      }
    }
    forall row | row in t.audit ensures AuditFine(t, row) {
      var i :| 0 <= i < |t.audit| && t.audit[i] == row;
      if i < |w.audit| {
        assert w.audit[i] == row && row in w.audit;
        AuditCarries(w, t, a, row);
      }
    }
  }

  lemma FineCarries(w: World, t: World, a: ActorId, b: ActorId, actor: Actor)
    requires Forward(w, t, a) && a != b && ActorFine(w, b, actor)
    ensures ActorFine(t, b, actor)
  {
    match actor {
      case Deleting(due) => DuesCarry(w, t, a, due);
      case Removing(at, due) =>
        DueCarries(w, t, a, at);
        DuesCarry(w, t, a, due);
      case RecordingOrphan(at, due) =>
        DueCarries(w, t, a, at);
        DuesCarry(w, t, a, due);
      case Retrying(orphans) => RowsCarry(w, t, a, orphans);
      case RecordingRecovery(orphan, orphans) =>
        AuditCarries(w, t, a, orphan);
        RowsCarry(w, t, a, orphans);
      case _ =>
    }
  }

  lemma DueCarries(w: World, t: World, a: ActorId, d: Due)
    requires Forward(w, t, a) && DueFine(w, d)
    ensures DueFine(t, d)
  {
  }

  lemma AuditCarries(w: World, t: World, a: ActorId, row: AuditRow)
    requires Forward(w, t, a) && AuditFine(w, row)
    ensures AuditFine(t, row) && (row.path !in w.store ==> row.path !in t.store)
  {
  }

  lemma DuesCarry(w: World, t: World, a: ActorId, due: seq<Due>)
    requires Forward(w, t, a) && forall i | 0 <= i < |due| :: DueFine(w, due[i])
    ensures forall i | 0 <= i < |due| :: DueFine(t, due[i])
  {
    forall i | 0 <= i < |due| ensures DueFine(t, due[i]) { DueCarries(w, t, a, due[i]); }
  }

  lemma RowsCarry(w: World, t: World, a: ActorId, rows: seq<AuditRow>)
    requires Forward(w, t, a) && forall i | 0 <= i < |rows| :: AuditFine(w, rows[i])
    ensures forall i | 0 <= i < |rows| :: AuditFine(t, rows[i])
  {
    forall i | 0 <= i < |rows| ensures AuditFine(t, rows[i]) { AuditCarries(w, t, a, rows[i]); }
  }

  lemma BeginPersistKeeps(w: World, a: ActorId, todo: seq<Path>)
    requires Inv(w) && a !in w.actors && NoRepeats(todo) && forall i | 0 <= i < |todo| :: todo[i] !in w.stage
    ensures Keeps(w, Become(w.(stage := SetAll(w.stage, todo, Prospective(a))), a, Uploading(todo, [])), a)
  {
    assert [] + todo == todo;
    assert forall id | id in w.rows :: RowFine(w, id);
  }

  lemma UploadKeeps(w: World, a: ActorId, todo: seq<Path>, stored: seq<Path>)
    requires Inv(w) && ActorFine(w, a, Uploading(todo, stored)) && todo != []
    ensures Keeps(w, Uploaded(w, a, todo, stored), a)
  {
    assert (stored + [todo[0]]) + todo[1..] == stored + todo;
    assert forall id | id in w.rows :: RowFine(w, id);
  }

  lemma AbandonKeeps(w: World, a: ActorId, paths: seq<Path>)
    requires Inv(w) && AllAt(w, paths, Prospective(a))
    ensures Keeps(w, Abandon(w, a, paths), a)
  {
    assert forall p | p in paths :: At(w, p, Prospective(a));
    assert forall id | id in w.rows :: RowFine(w, id);
  }

  /** Any call that leaves rows, paths and bytes alone, and at most notes something true. */
  lemma QuietKeeps(w: World, a: ActorId, row: AuditRow, works: bool, actor: Actor)
    requires Inv(w) && ActorFine(w, a, actor) && (works ==> AuditFine(w, row))
    ensures Keeps(w, Become(Noted(w, row, works), a, actor), a)
  {
    var t := Become(Noted(w, row, works), a, actor);
    assert forall id | id in w.rows :: RowFine(w, id);
    SameFine(w, t, a, actor);
    assert works ==> AuditFine(t, row);
  }

  lemma SameFine(w: World, t: World, a: ActorId, actor: Actor)
    requires ActorFine(w, a, actor) && t.store == w.store && t.stage == w.stage && t.pathOf == w.pathOf
    ensures ActorFine(t, a, actor)
  {
    match actor {
      case Deleting(due) => assert forall i | 0 <= i < |due| :: DueFine(w, due[i]) ==> DueFine(t, due[i]);
      case Removing(_, due) => assert forall i | 0 <= i < |due| :: DueFine(w, due[i]) ==> DueFine(t, due[i]);
      case RecordingOrphan(_, due) => assert forall i | 0 <= i < |due| :: DueFine(w, due[i]) ==> DueFine(t, due[i]);
      case Retrying(os) => assert forall i | 0 <= i < |os| :: AuditFine(w, os[i]) ==> AuditFine(t, os[i]);
      case RecordingRecovery(_, os) => assert forall i | 0 <= i < |os| :: AuditFine(w, os[i]) ==> AuditFine(t, os[i]);
      case _ =>
    }
  }

  /** Any call that removes the bytes of a spent path. */
  lemma RemovalKeeps(w: World, a: ActorId, p: Path, actor: Actor)
    requires Inv(w) && ActorFine(w, a, actor) && At(w, p, Spent) && !actor.Uploading? && !actor.InTransaction?
    ensures Keeps(w, Become(Without(w, p), a, actor), a)
    ensures ActorFine(Without(w, p), a, actor)
  {
    var t := Without(w, p);
    assert forall id | id in w.rows :: RowFine(w, id);
    assert Forward(w, t, a + 1);
    FineCarries(w, t, a + 1, a, actor);
    SameFine(t, Become(t, a, actor), a, actor);
  }

  lemma BeginTransactionKeeps(w: World, a: ActorId, stored: seq<Path>)
    requires Inv(w) && ActorFine(w, a, Uploading([], stored))
    ensures Keeps(w, Become(w.(begun := w.begun + set p | p in stored), a, InTransaction(stored)), a)
  {
    assert stored + [] == stored;
    assert forall id | id in w.rows :: RowFine(w, id);
  }

  lemma CommitKeeps(w: World, a: ActorId, stored: seq<Path>, ids: seq<EvidenceId>)
    requires Inv(w) && ActorFine(w, a, InTransaction(stored)) && |ids| == |stored|
    requires NoRepeats(ids) && forall i | 0 <= i < |ids| :: ids[i] !in w.pathOf
    ensures Keeps(w, Committed(w, a, stored, ids), a)
  {
    var t := Committed(w, a, stored, ids);
    assert forall p | p in stored :: At(w, p, Prospective(a));
    forall id | id in t.rows ensures RowFine(t, id) {
      if id in ids {
        var i := Index(ids, id);
        assert stored[i] in w.store;
        assert t.rows[ids[i]] == stored[i] && t.pathOf[ids[i]] == stored[i] && t.stage[stored[i]] == Cited(ids[i]);
      } else {
        assert RowFine(w, id);
        assert w.rows[id] !in stored;
      }
    }
  }

  lemma RollbackKeeps(w: World, a: ActorId, stored: seq<Path>)
    requires Inv(w) && ActorFine(w, a, InTransaction(stored))
    ensures Keeps(w, RolledBack(w, a, stored), a)
  {
    assert forall p | p in stored :: At(w, p, Prospective(a));
    assert forall id | id in w.rows :: RowFine(w, id);
  }

  lemma DeleteRowKeeps(w: World, a: ActorId, due: seq<Due>)
    requires Inv(w) && ActorFine(w, a, Deleting(due)) && due != []
    ensures Keeps(w, RowDeleted(w, a, due), a)
  {
    var t := RowDeleted(w, a, due);
    assert DueFine(w, due[0]);
    assert forall id | id in w.rows :: RowFine(w, id);
    assert Forward(w, t, a);
    DuesCarry(w, t, a, due);
  }

  lemma EndKeeps(w: World, a: ActorId)
    requires Inv(w)
    ensures Keeps(w, Gone(w, a), a)
  {
    assert forall id | id in w.rows :: RowFine(w, id);
  }

  lemma BeginsKeep(w: World, step: Step)
    requires Inv(w) && Enabled(w, step) && (step.move.BeginPersist? || step.move.BeginSweep?)
    ensures Keeps(w, Apply(w, step), step.a)
  {
    match step.move {
      case BeginPersist(todo) => BeginPersistKeeps(w, step.a, todo);
      case BeginSweep(due) =>
        forall i | 0 <= i < |due| ensures DueFine(w, due[i]) {
          assert RowFine(w, due[i].id);
        }
        QuietKeeps(w, step.a, Orphaned(None, 0), false, Deleting(due));
      case _ =>
    }
  }

  lemma PersistMovesKeep(w: World, a: ActorId, move: Move, actor: Actor)
    requires Inv(w) && ActorFine(w, a, actor) && MayMove(w, move, actor)
    requires OfPersist(actor)
    ensures Keeps(w, PersistMoved(w, a, move, actor), a)
  {
    match move {
      case Put(works) =>
        if works {
          UploadKeeps(w, a, actor.todo, actor.stored);
        } else {
          AbandonKeeps(w, a, actor.todo + actor.stored);
        }
      case BeginTransaction => BeginTransactionKeeps(w, a, actor.stored);
      case BeginFails => AbandonKeeps(w, a, actor.stored);
      case Commit(ids) => CommitKeeps(w, a, actor.stored, ids);
      case Rollback => RollbackKeeps(w, a, actor.stored);
      case RollbackFails => AbandonKeeps(w, a, actor.stored);
      case CleanOne(works) =>
        if works {
          RemovalKeeps(w, a, actor.todo[0], CleaningUp(actor.todo[1..], actor.abandoned));
        } else {
          QuietKeeps(w, a, Orphaned(None, 0), false, CleaningUp(actor.todo[1..], actor.abandoned + [actor.todo[0]]));
        }
      case CleanedUp => QuietKeeps(w, a, Orphaned(None, 0), false, RecordingAbandoned(actor.abandoned));
      case RecordAbandoned(works) =>
        QuietKeeps(w, a, Orphaned(None, actor.abandoned[0]), works, RecordingAbandoned(actor.abandoned[1..]));
      case Finish => EndKeeps(w, a);
      case Die => AbandonKeeps(w, a, Left(actor));
      case _ =>
    }
  }

  lemma SweepMovesKeep(w: World, a: ActorId, move: Move, actor: Actor)
    requires Inv(w) && ActorFine(w, a, actor) && MayMove(w, move, actor)
    requires !OfPersist(actor)
    ensures Keeps(w, SweepMoved(w, a, move, actor), a)
  {
    match move {
      case DeleteRow(works) =>
        if works {
          DeleteRowKeeps(w, a, actor.due);
        } else {
          QuietKeeps(w, a, Orphaned(None, 0), false, Deleting(actor.due[1..]));
        }
      case RemoveBytes(works) =>
        if works {
          RemovalKeeps(w, a, actor.at.path, Deleting(actor.due));
        } else {
          QuietKeeps(w, a, Orphaned(None, 0), false, RecordingOrphan(actor.at, actor.due));
        }
      case RecordOrphan(works) =>
        QuietKeeps(w, a, Orphaned(Some(actor.at.id), actor.at.path), works, Deleting(actor.due));
      case BeginRetry(orphans) => QuietKeeps(w, a, Orphaned(None, 0), false, Retrying(orphans));
      case RetryRemove(works) => RetryRemoveKeeps(w, a, actor.orphans, works);
      case RecordRecovery(works) =>
        QuietKeeps(w, a, RemovedLater(actor.orphan.entity, actor.orphan.path), works, Retrying(actor.orphans));
      case SweepFails => EndKeeps(w, a);
      case Finish => EndKeeps(w, a);
      case Die => EndKeeps(w, a);
      case _ =>
    }
  }

  /** What a step keeps does not depend on where its own caller goes next. */
  lemma OtherPhaseKeeps(w: World, t: World, a: ActorId, was: Actor, actor: Actor)
    requires Keeps(w, Become(t, a, was), a) && ActorFine(t, a, actor)
    ensures Keeps(w, Become(t, a, actor), a)
  {
    var u, v := Become(t, a, was), Become(t, a, actor);
    SameFine(t, v, a, actor);
    assert v.actors - {a} == u.actors - {a};
    assert RowsOnlyGo(w, u) ==> RowsOnlyGo(w, v);
    assert (forall id | id in u.rows :: RowFine(u, id)) ==> forall id | id in v.rows :: RowFine(u, id) && RowFine(v, id);
    assert forall i | |w.audit| <= i < |u.audit| :: AuditFine(u, u.audit[i]) && AuditFine(v, u.audit[i]);
  }

  lemma FirstOrphanFine(w: World, orphans: seq<AuditRow>)
    requires orphans != [] && forall i | 0 <= i < |orphans| :: AuditFine(w, orphans[i])
    ensures AuditFine(w, orphans[0]) && forall i | 0 <= i < |orphans[1..]| :: AuditFine(w, orphans[1..][i])
  {
  }

  lemma RetryRemoveKeeps(w: World, a: ActorId, orphans: seq<AuditRow>, works: bool)
    requires Inv(w) && ActorFine(w, a, Retrying(orphans)) && orphans != []
    ensures Keeps(w, SweepMoved(w, a, RetryRemove(works), Retrying(orphans)), a)
  {
    var first, rest := orphans[0], orphans[1..];
    FirstOrphanFine(w, orphans);
    if works {
      RetryWorksKeeps(w, a, first, rest);
    } else {
      QuietKeeps(w, a, Orphaned(None, 0), false, Retrying(rest));
    }
  }

  lemma RetryWorksKeeps(w: World, a: ActorId, first: AuditRow, rest: seq<AuditRow>)
    requires Inv(w) && AuditFine(w, first) && forall i | 0 <= i < |rest| :: AuditFine(w, rest[i])
    ensures Keeps(w, Become(Without(w, first.path), a, RecordingRecovery(first, rest)), a)
  {
    var t := Without(w, first.path);
    RemovalKeeps(w, a, first.path, Retrying(rest));
    assert AuditFine(t, first);
    assert ActorFine(t, a, RecordingRecovery(first, rest));
    OtherPhaseKeeps(w, t, a, Retrying(rest), RecordingRecovery(first, rest));
  }

  lemma InvStep(w: World, step: Step)
    requires Inv(w) && Enabled(w, step)
    ensures Inv(Apply(w, step)) && Keeps(w, Apply(w, step), step.a)
  {
    if step.a !in w.actors {
      BeginsKeep(w, step);
    } else {
      var actor := w.actors[step.a];
      assert ActorFine(w, step.a, actor);
      if OfPersist(actor) {
        PersistMovesKeep(w, step.a, step.move, actor);
      } else {
        SweepMovesKeep(w, step.a, step.move, actor);
      }
    }
    KeepingKeepsInv(w, Apply(w, step), step.a);
  }
}
