/**
What every interleaving of persists and retention sweeps keeps: rows backed by
bytes, leftover bytes apart from cited ones, and every byte accounted for.
*/
module EvidenceTheorems {
  import opened Options
  import opened OrphanAudit
  import opened EvidenceProtocol

  ghost predicate StepTaken(ws: seq<World>, steps: seq<Step>, i: nat)
    requires i < |steps| && |ws| == |steps| + 1
  {
    Enabled(ws[i], steps[i]) && ws[i + 1] == Apply(ws[i], steps[i])
  }

  /** Any interleaving at all: who moves, what fails and who dies is up to the steps. */
  ghost predicate IsRun(ws: seq<World>, steps: seq<Step>) {
    |ws| == |steps| + 1 && ws[0] == START && forall i | 0 <= i < |steps| :: StepTaken(ws, steps, i)
  }

  lemma {:induction false} InvHolds(ws: seq<World>, steps: seq<Step>, i: nat)
    requires IsRun(ws, steps) && i < |ws|
    ensures Inv(ws[i])
    decreases i
  {
    if i > 0 {
      InvHolds(ws, steps, i - 1);
      assert StepTaken(ws, steps, i - 1);
      InvStep(ws[i - 1], steps[i - 1]);
    }
  }

  // ----- rows are backed, and leftovers are nobody's ------------------------

  predicate CitedBy(w: World, p: Path) {
    exists id | id in w.rows :: w.rows[id] == p
  }

  /** Every committed row's path holds bytes, and no path the audit log calls an orphan is cited. */
  lemma RowsAreBacked(ws: seq<World>, steps: seq<Step>, i: nat)
    requires IsRun(ws, steps) && i < |ws|
    ensures forall id | id in ws[i].rows :: ws[i].rows[id] in ws[i].store
    ensures forall id, other | id in ws[i].rows && other in ws[i].rows && id != other :: ws[i].rows[id] != ws[i].rows[other]
    ensures forall row | row in ws[i].audit && !row.Unreadable? :: !CitedBy(ws[i], row.path)
    ensures forall row | row in ws[i].audit && row.entity.Some? :: row.entity.value !in ws[i].rows
  {
    InvHolds(ws, steps, i);
    var w := ws[i];
    forall id | id in w.rows ensures w.rows[id] in w.store && At(w, w.rows[id], Cited(id)) {
      assert RowFine(w, id);
    }
    forall row | row in w.audit
      ensures !row.Unreadable? && !CitedBy(w, row.path) && (row.entity.Some? ==> row.entity.value !in w.rows)
    {
      assert AuditFine(w, row);
    }
  }

  lemma SpentIsUncited(w: World, p: Path)
    requires Inv(w) && At(w, p, Spent)
    ensures !CitedBy(w, p)
  {
    forall id | id in w.rows ensures w.rows[id] != p { assert RowFine(w, id); }
  }

  /** No step of any run removes bytes a row cites, before it or after it. */
  lemma OnlyUncitedBytesGo(ws: seq<World>, steps: seq<Step>, i: nat, p: Path)
    requires IsRun(ws, steps) && i < |steps|
    requires p in ws[i].store && p !in ws[i + 1].store
    ensures !CitedBy(ws[i], p) && !CitedBy(ws[i + 1], p)
  {
    InvHolds(ws, steps, i);
    InvHolds(ws, steps, i + 1);
    assert StepTaken(ws, steps, i);
    InvStep(ws[i], steps[i]);
    SpentIsUncited(ws[i], p);
    SpentIsUncited(ws[i + 1], p);
  }

  /** Why a `commit` that throws must not have taken effect: its clean-up removes what it committed. */
  lemma LostCommitUnbacksRows(w: World, a: ActorId, stored: seq<Path>, ids: seq<EvidenceId>)
    requires Inv(w) && a in w.actors && w.actors[a] == InTransaction(stored) && stored != []
    requires MayMove(w, Commit(ids), w.actors[a])
    ensures
      var lost := Become(Committed(w, a, stored, ids), a, CleaningUp(stored, []));
      var cleaned := Cleaned(lost, a, stored, [], true);
      ids[0] in cleaned.rows && cleaned.rows[ids[0]] !in cleaned.store
  {
    CommitKeeps(w, a, stored, ids);
    assert ids[0] in ids;
  }

  // ----- the books: begun paths ---------------------------------------------

  predicate Names(row: AuditRow, p: Path) {
    !row.Unreadable? && row.path == p
  }

  /** A recorded orphan that no later row resolves, which is what the retry pass reads. */
  predicate OnRecord(w: World, p: Path) {
    exists i | 0 <= i < |w.audit| :: Names(w.audit[i], p) && Unresolved(w.audit, w.audit[i])
  }

  /** A call in flight that still has the path to deal with. */
  predicate Holds(actor: Actor, p: Path) {
    match actor
    case InTransaction(stored) => p in stored
    case CleaningUp(todo, abandoned) => p in todo || p in abandoned
    case RecordingAbandoned(abandoned) => p in abandoned
    case Removing(at, _) => at.path == p
    case RecordingOrphan(at, _) => at.path == p
    case _ => false
  }

  predicate InHand(w: World, p: Path) {
    exists a | a in w.actors :: Holds(w.actors[a], p)
  }

  predicate Accounted(w: World, p: Path) {
    CitedBy(w, p) || p !in w.store || OnRecord(w, p) || InHand(w, p)
  }

  /** A path that reached its transaction is in no upload that is still to come. */
  predicate PastUpload(w: World, p: Path) {
    p in w.stage && forall a | a in w.actors && w.actors[a].Uploading? :: p !in w.actors[a].todo
  }

  ghost predicate Books(w: World) {
    forall p | p in w.begun :: Accounted(w, p) && PastUpload(w, p)
  }

  /** Audit writes and a persist's rollback succeed and no process dies. Everything else may still fail. */
  predicate Careful(move: Move) {
    && !move.Die? && !move.RollbackFails?
    && (move.RecordAbandoned? ==> move.works)
    && (move.RecordOrphan? ==> move.works)
  }

  lemma RecordsLast(w: World, t: World, a: ActorId, p: Path)
    requires Inv(w) && Inv(t) && Keeps(w, t, a) && OnRecord(w, p)
    ensures OnRecord(t, p) || p !in t.store
  {
    var i :| 0 <= i < |w.audit| && Names(w.audit[i], p) && Unresolved(w.audit, w.audit[i]);
    var orphan := w.audit[i];
    assert t.audit[i] == orphan && orphan in t.audit;
    if !Unresolved(t.audit, orphan) {
      var later :| later in t.audit && Resolves(later, orphan);
      assert AuditFine(t, later) && AuditFine(t, orphan);
    }
  }

  /** Only a commit and a deletion touch the rows. */
  lemma RowsStand(w: World, step: Step)
    requires Enabled(w, step) && !step.move.Commit? && step.move != DeleteRow(true)
    ensures Apply(w, step).rows == w.rows
  {
    if step.a in w.actors {
      if OfPersist(w.actors[step.a]) {
        PersistLeavesRows(w, step.a, step.move, w.actors[step.a]);
      } else {
        SweepLeavesRows(w, step.a, step.move, w.actors[step.a]);
      }
    }
  }

  lemma PersistLeavesRows(w: World, a: ActorId, move: Move, actor: Actor)
    requires MayMove(w, move, actor) && OfPersist(actor) && !move.Commit?
    ensures PersistMoved(w, a, move, actor).rows == w.rows
  {
  }

  lemma SweepLeavesRows(w: World, a: ActorId, move: Move, actor: Actor)
    requires MayMove(w, move, actor) && !OfPersist(actor) && move != DeleteRow(true)
    ensures SweepMoved(w, a, move, actor).rows == w.rows
  {
  }

  lemma CommitAddsRows(w: World, a: ActorId, ids: seq<EvidenceId>, id: EvidenceId)
    requires Inv(w) && Enabled(w, Step(a, Commit(ids))) && id in w.rows
    ensures var t := Apply(w, Step(a, Commit(ids))); id in t.rows && t.rows[id] == w.rows[id]
  {
    assert RowFine(w, id);
    assert id !in ids;
  }

  /** A row that goes leaves its path in the hands of the sweep that deleted it. */
  lemma DeletionHandsOn(w: World, a: ActorId, id: EvidenceId)
    requires Inv(w) && Enabled(w, Step(a, DeleteRow(true))) && id in w.rows
    ensures var t := Apply(w, Step(a, DeleteRow(true)));
      (id in t.rows && t.rows[id] == w.rows[id]) || (a in t.actors && Holds(t.actors[a], w.rows[id]))
  {
    var due := w.actors[a].due;
    assert ActorFine(w, a, w.actors[a]) && DueFine(w, due[0]);
    assert RowFine(w, id);
  }

  lemma CitationsLast(w: World, step: Step, p: Path)
    requires Inv(w) && Enabled(w, step) && CitedBy(w, p)
    ensures var t := Apply(w, step); CitedBy(t, p) || (step.a in t.actors && Holds(t.actors[step.a], p))
  {
    var id :| id in w.rows && w.rows[id] == p;
    assert RowFine(w, id);
    if step.move.Commit? {
      CommitAddsRows(w, step.a, step.move.ids, id);
    } else if step.move == DeleteRow(true) {
      DeletionHandsOn(w, step.a, id);
    } else {
      RowsStand(w, step);
    }
  }

  /** What the mover had in hand it cites, removes, records or still has. */
  lemma HandsPassOn(w: World, step: Step, p: Path)
    requires Inv(w) && Enabled(w, step) && Careful(step.move)
    requires step.a in w.actors && Holds(w.actors[step.a], p)
    ensures var t := Apply(w, step);
      CitedBy(t, p) || p !in t.store || OnRecord(t, p) || (step.a in t.actors && Holds(t.actors[step.a], p))
  {
    var t := Apply(w, step);
    var actor := w.actors[step.a];
    match step.move {
      case Commit(ids) =>
        var k := Index(actor.stored, p);
        assert ids[k] in ids && t.rows[ids[k]] == p by {
          assert ActorFine(w, step.a, actor);
        }
      case CleanOne(_) => FirstOrRest(actor.todo, p);
      case RecordAbandoned(_) =>
        FirstOrRest(actor.abandoned, p);
        if actor.abandoned[0] == p {
          FreshOrphan(w, t, step.a, Orphaned(None, p));
        }
      case RecordOrphan(_) => FreshOrphan(w, t, step.a, Orphaned(Some(actor.at.id), p));
      case _ =>
    }
  }

  lemma FirstOrRest(s: seq<Path>, p: Path)
    requires s != []
    ensures p in s <==> p == s[0] || p in s[1..]
  {
    assert s == [s[0]] + s[1..];
  }

  /** A newly recorded orphan stands, unless its bytes are gone already. */
  lemma FreshOrphan(w: World, t: World, a: ActorId, orphan: AuditRow)
    requires Inv(w) && orphan.Orphaned? && t.audit == w.audit + [orphan] && t.store == w.store
    requires NamesItsRow(w, orphan.entity, orphan.path)
    ensures OnRecord(t, orphan.path) || orphan.path !in t.store
  {
    assert t.audit[|w.audit|] == orphan;
    if !Unresolved(t.audit, orphan) {
      var later :| later in t.audit && Resolves(later, orphan);
      assert later in w.audit;
      assert AuditFine(w, later);
    }
  }

  lemma AccountedStep(w: World, step: Step, p: Path)
    requires Inv(w) && Enabled(w, step) && Careful(step.move)
    requires Accounted(w, p) && PastUpload(w, p)
    ensures Accounted(Apply(w, step), p)
  {
    var t := Apply(w, step);
    InvStep(w, step);
    if CitedBy(w, p) {
      CitationsLast(w, step, p);
    } else if OnRecord(w, p) {
      RecordsLast(w, t, step.a, p);
    } else if InHand(w, p) {
      var b :| b in w.actors && Holds(w.actors[b], p);
      if b == step.a {
        HandsPassOn(w, step, p);
      } else {
        OthersKeepTheirs(w, t, step.a, b);
      }
    } else {
      assert p !in t.store by { NothingReturns(w, step, p); }
    }
  }

  lemma OthersKeepTheirs(w: World, t: World, a: ActorId, b: ActorId)
    requires OthersStand(w, t, a) && b != a
    ensures b in w.actors <==> b in t.actors
    ensures b in w.actors ==> t.actors[b] == w.actors[b]
  {
    assert b in w.actors <==> b in w.actors - {a};
    assert b in t.actors <==> b in t.actors - {a};
    assert b in w.actors ==> (w.actors - {a})[b] == (t.actors - {a})[b];
  }

  lemma NothingReturns(w: World, step: Step, p: Path)
    requires Enabled(w, step) && PastUpload(w, p) && p !in w.store
    ensures p !in Apply(w, step).store
  {
    match step.move {
      case Put(works) =>
        assert w.actors[step.a].todo[0] in w.actors[step.a].todo;
      case _ =>
    }
  }

  /** What is still to be uploaded only shrinks. */
  lemma OwnTodo(w: World, a: ActorId, move: Move, actor: Actor, p: Path)
    requires MayMove(w, move, actor) && OfPersist(actor) && (actor.Uploading? ==> p !in actor.todo)
    ensures var t := PersistMoved(w, a, move, actor); a in t.actors && t.actors[a].Uploading? ==> p !in t.actors[a].todo
  {
    match move {
      case Put(_) => FirstOrRest(actor.todo, p);
      case _ =>
    }
  }

  lemma SweepsDoNotUpload(w: World, a: ActorId, move: Move, actor: Actor)
    requires MayMove(w, move, actor) && !OfPersist(actor)
    ensures var t := SweepMoved(w, a, move, actor); a in t.actors ==> !t.actors[a].Uploading?
  {
  }

  lemma MoversTodo(w: World, step: Step, p: Path)
    requires Enabled(w, step) && PastUpload(w, p)
    ensures var t := Apply(w, step); step.a in t.actors && t.actors[step.a].Uploading? ==> p !in t.actors[step.a].todo
  {
    if step.a in w.actors {
      if OfPersist(w.actors[step.a]) {
        OwnTodo(w, step.a, step.move, w.actors[step.a], p);
      } else {
        SweepsDoNotUpload(w, step.a, step.move, w.actors[step.a]);
      }
    }
  }

  lemma PastUploadStep(w: World, step: Step, p: Path)
    requires Inv(w) && Enabled(w, step) && PastUpload(w, p)
    ensures PastUpload(Apply(w, step), p)
  {
    var t := Apply(w, step);
    InvStep(w, step);
    MoversTodo(w, step, p);
    forall b | b in t.actors && t.actors[b].Uploading? && b != step.a ensures p !in t.actors[b].todo {
      OthersKeepTheirs(w, t, step.a, b);
    }
  }

  /** A path enters the books in the hands of the persist that stored it. */
  lemma NewlyBegun(w: World, a: ActorId, stored: seq<Path>, p: Path)
    requires Inv(w) && a in w.actors && w.actors[a] == Uploading([], stored) && p in stored
    ensures var t := Apply(w, Step(a, BeginTransaction)); Accounted(t, p) && PastUpload(t, p)
  {
    var t := Apply(w, Step(a, BeginTransaction));
    InvStep(w, Step(a, BeginTransaction));
    assert ActorFine(w, a, w.actors[a]);
    assert Holds(t.actors[a], p);
    assert At(w, p, Prospective(a));
    forall b | b in t.actors && t.actors[b].Uploading? ensures p !in t.actors[b].todo {
      OthersKeepTheirs(w, t, a, b);
      assert ActorFine(w, b, w.actors[b]);
    }
  }

  lemma BooksStep(w: World, step: Step)
    requires Inv(w) && Books(w) && Enabled(w, step) && Careful(step.move)
    ensures Books(Apply(w, step))
  {
    var t := Apply(w, step);
    forall p | p in t.begun ensures Accounted(t, p) && PastUpload(t, p) {
      if p in w.begun {
        AccountedStep(w, step, p);
        PastUploadStep(w, step, p);
      } else {
        assert step.move.BeginTransaction?;
        var stored := w.actors[step.a].stored;
        assert w.actors[step.a] == Uploading([], stored);
        NewlyBegun(w, step.a, stored, p);
      }
    }
  }

  ghost predicate AllCareful(steps: seq<Step>) {
    forall i | 0 <= i < |steps| :: Careful(steps[i].move)
  }

  lemma {:induction false} BooksHold(ws: seq<World>, steps: seq<Step>, i: nat)
    requires IsRun(ws, steps) && AllCareful(steps) && i < |ws|
    ensures Books(ws[i])
    decreases i
  {
    if i > 0 {
      BooksHold(ws, steps, i - 1);
      InvHolds(ws, steps, i - 1);
      assert StepTaken(ws, steps, i - 1) && Careful(steps[i - 1].move);
      BooksStep(ws[i - 1], steps[i - 1]);
    }
  }

  // ----- what a failed upload strands ---------------------------------------

  /** Any way a call in flight can still come to a path. */
  predicate Mentions(actor: Actor, p: Path) {
    match actor
    case Uploading(todo, stored) => p in todo || p in stored
    case InTransaction(stored) => p in stored
    case CleaningUp(todo, abandoned) => p in todo || p in abandoned
    case RecordingAbandoned(abandoned) => p in abandoned
    case Deleting(due) => InDue(due, p)
    case Removing(at, due) => at.path == p || InDue(due, p)
    case RecordingOrphan(at, due) => at.path == p || InDue(due, p)
    case Retrying(orphans) => InRows(orphans, p)
    case RecordingRecovery(orphan, orphans) => Names(orphan, p) || InRows(orphans, p)
  }

  predicate InDue(due: seq<Due>, p: Path) {
    exists i | 0 <= i < |due| :: due[i].path == p
  }

  predicate InRows(rows: seq<AuditRow>, p: Path) {
    exists i | 0 <= i < |rows| :: Names(rows[i], p)
  }

  /** Bytes we hold that no row, no audit row and no call in flight knows of. */
  predicate Stranded(w: World, p: Path) {
    && p in w.store && p in w.stage
    && !CitedBy(w, p) && !InRows(w.audit, p)
    && forall a | a in w.actors :: !Mentions(w.actors[a], p)
  }

  lemma DueTail(due: seq<Due>, p: Path)
    requires due != []
    ensures InDue(due, p) <==> due[0].path == p || InDue(due[1..], p)
  {
    assert due == [due[0]] + due[1..];
  }

  lemma RowsTail(rows: seq<AuditRow>, p: Path)
    requires rows != []
    ensures InRows(rows, p) <==> Names(rows[0], p) || InRows(rows[1..], p)
  {
    assert rows == [rows[0]] + rows[1..];
  }

  /** No call comes to a path it did not know of, except by storing or citing it. */
  lemma NothingLearned(w: World, step: Step, p: Path)
    requires Enabled(w, step) && Stranded(w, p)
    ensures var t := Apply(w, step); step.a in t.actors ==> !Mentions(t.actors[step.a], p)
  {
    if step.a in w.actors {
      NothingLearnedMidway(w, step.a, step.move, w.actors[step.a], p);
    } else {
      match step.move {
        case BeginSweep(due) => assert forall i | 0 <= i < |due| :: due[i].id in w.rows && w.rows[due[i].id] == due[i].path;
        case _ =>
      }
    }
  }

  lemma NothingLearnedMidway(w: World, a: ActorId, move: Move, actor: Actor, p: Path)
    requires MayMove(w, move, actor) && Stranded(w, p) && !Mentions(actor, p)
    ensures var t := Moved(w, a, move, actor); a in t.actors ==> !Mentions(t.actors[a], p)
  {
    match move {
      case Put(_) => FirstOrRest(actor.todo, p);
      case CleanOne(_) => FirstOrRest(actor.todo, p);
      case RecordAbandoned(_) => FirstOrRest(actor.abandoned, p);
      case DeleteRow(_) => DueTail(actor.due, p);
      case RetryRemove(_) => RowsTail(actor.orphans, p);
      case _ =>
    }
  }

  lemma NothingTouched(w: World, a: ActorId, move: Move, actor: Actor, p: Path)
    requires MayMove(w, move, actor) && Stranded(w, p) && !Mentions(actor, p)
    ensures var t := Moved(w, a, move, actor); p in t.store && p in t.stage && !CitedBy(t, p) && !InRows(t.audit, p)
  {
    var t := Moved(w, a, move, actor);
    match move {
      case Commit(ids) =>
        forall id | id in t.rows ensures t.rows[id] != p {
          if id in ids {
            assert t.rows[ids[Index(ids, id)]] == actor.stored[Index(ids, id)];
          } else {
            assert id in w.rows;
          }
        }
      case CleanOne(_) => FirstOrRest(actor.todo, p);
      case RecordAbandoned(_) => FirstOrRest(actor.abandoned, p);
      case RetryRemove(_) => RowsTail(actor.orphans, p);
      case DeleteRow(_) =>
        forall id | id in t.rows ensures t.rows[id] != p { assert id in w.rows; }
      case _ =>
    }
  }

  /** Once stranded, always stranded: no persist, sweep, retry or crash ever reaches the bytes again. */
  lemma StrandedForGood(w: World, step: Step, p: Path)
    requires Inv(w) && Enabled(w, step) && Stranded(w, p)
    ensures Stranded(Apply(w, step), p)
  {
    var t := Apply(w, step);
    InvStep(w, step);
    NothingLearned(w, step, p);
    if step.a in w.actors {
      NothingTouched(w, step.a, step.move, w.actors[step.a], p);
    }
    forall b | b in t.actors ensures !Mentions(t.actors[b], p) {
      if b != step.a {
        OthersKeepTheirs(w, t, step.a, b);
      }
    }
  }

  /** What an actor mentions is never another persist's own. */
  lemma MentionsAreMine(w: World, b: ActorId, actor: Actor, a: ActorId, p: Path)
    requires ActorFine(w, b, actor) && a != b && At(w, p, Prospective(a))
    ensures !Mentions(actor, p)
  {
    match actor {
      case Deleting(due) => assert forall i | 0 <= i < |due| :: DueFine(w, due[i]);
      case Removing(_, due) => assert forall i | 0 <= i < |due| :: DueFine(w, due[i]);
      case RecordingOrphan(_, due) => assert forall i | 0 <= i < |due| :: DueFine(w, due[i]);
      case Retrying(os) => assert forall i | 0 <= i < |os| :: AuditFine(w, os[i]);
      case RecordingRecovery(_, os) => assert forall i | 0 <= i < |os| :: AuditFine(w, os[i]);
      case _ =>
    }
  }

  /** The upload loop and `begin` are outside the `try`, and the clean-up is behind the `rollback`. */
  predicate Unhandled(move: Move) {
    move == Put(false) || move == BeginFails || move == RollbackFails
  }

  /** When one of those fails, every path the run has stored so far is stranded. */
  lemma FailedUploadStrands(w: World, step: Step, p: Path)
    requires Inv(w) && Enabled(w, step) && Unhandled(step.move)
    requires p in w.actors[step.a].stored
    ensures Stranded(Apply(w, step), p)
  {
    var a, t := step.a, Apply(w, step);
    InvStep(w, step);
    assert ActorFine(w, a, w.actors[a]);
    assert At(w, p, Prospective(a));
    assert step.move.Put? ==> p in w.actors[a].todo + w.actors[a].stored;
    SpentIsUncited(t, p);
    forall row | row in w.audit ensures !Names(row, p) { assert AuditFine(w, row); }
    forall b | b in t.actors ensures !Mentions(t.actors[b], p) {
      OthersKeepTheirs(w, t, a, b);
      MentionsAreMine(w, b, w.actors[b], a, p);
    }
  }

  // ----- the whole account --------------------------------------------------

  /** Bytes that never reached a transaction are being uploaded, or are stranded. */
  predicate UnbegunBytes(w: World, p: Path) {
    Stranded(w, p) || exists a | a in w.actors :: w.actors[a].Uploading? && p in w.actors[a].stored
  }

  ghost predicate Unbegun(w: World) {
    forall p | p in w.store && p !in w.begun :: UnbegunBytes(w, p)
  }

  lemma OwnNewBytes(w: World, a: ActorId, move: Move, actor: Actor, p: Path)
    requires MayMove(w, move, actor) && OfPersist(actor) && p in PersistMoved(w, a, move, actor).store && p !in w.store
    ensures var t := PersistMoved(w, a, move, actor); a in t.actors && t.actors[a].Uploading? && p in t.actors[a].stored
  {
  }

  lemma SweepsAddNoBytes(w: World, a: ActorId, move: Move, actor: Actor)
    requires MayMove(w, move, actor) && !OfPersist(actor)
    ensures SweepMoved(w, a, move, actor).store <= w.store
  {
  }

  /** Only an upload adds bytes, and its persist has them in hand. */
  lemma NewBytes(w: World, step: Step, p: Path)
    requires Enabled(w, step) && p in Apply(w, step).store && p !in w.store
    ensures var t := Apply(w, step); step.a in t.actors && t.actors[step.a].Uploading? && p in t.actors[step.a].stored
  {
    if step.a in w.actors {
      if OfPersist(w.actors[step.a]) {
        OwnNewBytes(w, step.a, step.move, w.actors[step.a], p);
      } else {
        SweepsAddNoBytes(w, step.a, step.move, w.actors[step.a]);
      }
    }
  }

  lemma UnbegunStep(w: World, step: Step)
    requires Inv(w) && Unbegun(w) && Enabled(w, step) && !step.move.Die?
    ensures Unbegun(Apply(w, step))
  {
    var t := Apply(w, step);
    forall p | p in t.store && p !in t.begun ensures UnbegunBytes(t, p) {
      if p in w.store {
        UnbegunLasts(w, step, p);
      } else {
        NewBytes(w, step, p);
      }
    }
  }

  lemma UnbegunLasts(w: World, step: Step, p: Path)
    requires Inv(w) && Unbegun(w) && Enabled(w, step) && !step.move.Die?
    requires p in w.store && p !in Apply(w, step).begun
    ensures UnbegunBytes(Apply(w, step), p)
  {
    BegunGrows(w, step);
    assert UnbegunBytes(w, p);
    if Stranded(w, p) {
      StrandedForGood(w, step, p);
    } else {
      var b :| b in w.actors && w.actors[b].Uploading? && p in w.actors[b].stored;
      UploadGoesOn(w, step, b, p);
    }
  }

  lemma BegunGrows(w: World, step: Step)
    requires Enabled(w, step)
    ensures w.begun <= Apply(w, step).begun
  {
  }

  lemma UploadGoesOn(w: World, step: Step, b: ActorId, p: Path)
    requires Inv(w) && Enabled(w, step) && !step.move.Die?
    requires b in w.actors && w.actors[b].Uploading? && p in w.actors[b].stored && p !in Apply(w, step).begun
    ensures UnbegunBytes(Apply(w, step), p)
  {
    if b != step.a {
      InvStep(w, step);
      OthersKeepTheirs(w, Apply(w, step), step.a, b);
    } else if Unhandled(step.move) {
      FailedUploadStrands(w, step, p);
    } else {
      OwnUploadGoesOn(w, b, step.move, w.actors[b], p);
    }
  }

  lemma OwnUploadGoesOn(w: World, a: ActorId, move: Move, actor: Actor, p: Path)
    requires MayMove(w, move, actor) && actor.Uploading? && p in actor.stored && !Unhandled(move) && !move.Die?
    ensures var t := Moved(w, a, move, actor);
      p in t.begun || (a in t.actors && t.actors[a].Uploading? && p in t.actors[a].stored)
  {
  }

  lemma {:induction false} UnbegunHolds(ws: seq<World>, steps: seq<Step>, i: nat)
    requires IsRun(ws, steps) && AllCareful(steps) && i < |ws|
    ensures Unbegun(ws[i])
    decreases i
  {
    if i > 0 {
      UnbegunHolds(ws, steps, i - 1);
      InvHolds(ws, steps, i - 1);
      assert StepTaken(ws, steps, i - 1) && Careful(steps[i - 1].move);
      UnbegunStep(ws[i - 1], steps[i - 1]);
    }
  }

  /**
  The whole account, once nothing is in flight: bytes are cited by a row or named by
  an unresolved orphan exactly when their persist reached its transaction. The rest
  are stranded, and stay so.
  */
  lemma BytesAccountedIffBegun(ws: seq<World>, steps: seq<Step>, i: nat, p: Path)
    requires IsRun(ws, steps) && AllCareful(steps) && i < |ws|
    requires ws[i].actors == map[] && p in ws[i].store
    ensures p in ws[i].begun <==> CitedBy(ws[i], p) || OnRecord(ws[i], p)
    ensures p !in ws[i].begun <==> Stranded(ws[i], p)
  {
    BooksHold(ws, steps, i);
    UnbegunHolds(ws, steps, i);
    assert p !in ws[i].begun ==> UnbegunBytes(ws[i], p);
    assert p in ws[i].begun ==> Accounted(ws[i], p);
  }
}
