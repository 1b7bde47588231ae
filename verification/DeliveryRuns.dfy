/**
The three delivery sweeps over whole runs, each read apart from its answers, so that
any number of sweeps go on while the others read and write: what any number of them keep,
what needs each kind to be alone, which is what the guard of one process sees to, and how
soon answers must come for "never given" to be final.
*/
module DeliveryRuns {
  import opened Options
  import opened Delivery
  import opened DeliveryTheorems

  type SweepId = nat

  /**
  How old an alert a pending query may still read, how long after the reading its rows may
  be answered, and whether a sweep ever starts beside another of its kind.
  */
  datatype Setting = Setting(readBy: int, lag: nat, alone: bool)

  /** The queries' own cut: `created_at > now() - interval '7 days'`. */
  predicate WithinTheWindow(setting: Setting) {
    0 <= setting.readBy < WINDOW
  }

  /** No row is answered later than the window after its alert was created. */
  predicate AnswersInTime(setting: Setting) {
    setting.readBy + setting.lag <= WINDOW
  }

  /** The rows of one page that are still to be answered, and when they were read. */
  datatype Flight = Flight(channel: Channel, rows: seq<Pending>, readAt: Instant)

  datatype World = World(now: Instant, book: Book, flights: map<SweepId, Flight>, notices: map<SweepId, seq<AlertId>>)

  /** What becomes of one row: the provider's result, or its ticket if its batch was fully answered. */
  datatype Answer = ByEmail(result: SendResult) | ByPush(ticket: Option<Ticket>) {
    function Channel(): Channel {
      if ByEmail? then Email else Push
    }

    predicate Taken() {
      match this
      case ByEmail(result) => result == Accepted
      case ByPush(ticket) => ticket == Some(Ticket.Taken)
    }
  }

  datatype Step =
    | Raise(at: Instant, id: AlertId)
    | ReadPending(at: Instant, s: SweepId, channel: Channel, page: seq<Pending>)
    | Answer(at: Instant, s: SweepId, answer: Answer)
    | Settle(at: Instant, s: SweepId)
    | ReadNotices(at: Instant, s: SweepId, overdue: seq<AlertId>)
    | WriteNotice(at: Instant, s: SweepId, works: bool)
    | SettleNotices(at: Instant, s: SweepId)

  /** Rows of known alerts. */
  predicate Known(b: Book, rows: seq<Pending>) {
    forall k | 0 <= k < |rows| :: rows[k].alert in b.alerts && b.alerts[rows[k].alert].created == rows[k].created
  }

  /** What a pending query returns at `at`: rows of known alerts young enough, unrecorded, each once. */
  predicate PendingPage(b: Book, page: seq<Pending>, at: Instant, channel: Channel, readBy: int) {
    && Known(b, page) && Unanswered(b, page, channel)
    && forall k | 0 <= k < |page| :: page[k].created >= at - readBy
  }

  /** What the notices query returns at `at`: alerts past the window, undelivered, and not yet recorded as such. */
  predicate OverduePage(b: Book, page: seq<AlertId>, at: Instant) {
    && (forall k | 0 <= k < |page| ::
          page[k] in b.alerts && b.alerts[page[k]].created < at - WINDOW && b.alerts[page[k]].delivered == None
          && page[k] !in b.notGiven)
    && forall k, l | 0 <= k < l < |page| :: page[k] != page[l]
  }

  predicate Enabled(setting: Setting, w: World, step: Step) {
    w.now <= step.at &&
    match step
    case Raise(_, id) => id !in w.book.alerts
    case ReadPending(at, s, channel, page) =>
      && s !in w.flights && PendingPage(w.book, page, at, channel, setting.readBy)
      && (setting.alone ==> forall t | t in w.flights :: w.flights[t].channel != channel)
    case Answer(at, s, answer) =>
      && s in w.flights && w.flights[s].channel == answer.Channel() && w.flights[s].rows != []
      && at <= w.flights[s].readAt + setting.lag
    case Settle(_, s) => s in w.flights
    case ReadNotices(at, s, page) => s !in w.notices && OverduePage(w.book, page, at) && (setting.alone ==> w.notices == map[])
    case WriteNotice(_, s, _) => s in w.notices && w.notices[s] != []
    case SettleNotices(_, s) => s in w.notices
  }

  /** One row, by the code of the sweep it belongs to. */
  function Emailed(b: Book, row: Pending, at: Instant, result: SendResult): Book {
    EmailOne(EmailProgress(b, NO_EMAIL), row, at, result).book
  }

  function Pushed(b: Book, row: Pending, at: Instant, ticket: Option<Ticket>): Book {
    var p := PushProgress(b, NO_PUSH);
    if ticket.Some? then TicketOne(p, row, at, ticket.value).book else NotSentOne(p, row, at).book
  }

  function Answered(b: Book, row: Pending, at: Instant, answer: Answer): Book {
    match answer
    case ByEmail(result) => Emailed(b, row, at, result)
    case ByPush(ticket) => Pushed(b, row, at, ticket)
  }

  function Noted(b: Book, id: AlertId, works: bool): Book {
    if works then b.(notGiven := b.notGiven + [id]) else b
  }

  /** The first row of a flight is dealt with. */
  function Next(w: World, s: SweepId, b: Book): World
    requires s in w.flights && w.flights[s].rows != []
  {
    w.(book := b, flights := w.flights[s := w.flights[s].(rows := w.flights[s].rows[1..])])
  }

  function Acted(setting: Setting, w: World, step: Step): World
    requires Enabled(setting, w, step)
  {
    match step
    case Raise(at, id) => w.(book := w.book.(alerts := w.book.alerts[id := Alert(at, None, None)]))
    case ReadPending(at, s, channel, page) => w.(flights := w.flights[s := Flight(channel, page, at)])
    case Answer(at, s, answer) => Next(w, s, Answered(w.book, w.flights[s].rows[0], at, answer))
    case Settle(_, s) => w.(flights := w.flights - {s})
    case ReadNotices(_, s, page) => w.(notices := w.notices[s := page])
    case WriteNotice(_, s, works) =>
      w.(book := Noted(w.book, w.notices[s][0], works), notices := w.notices[s := w.notices[s][1..]])
    case SettleNotices(_, s) => w.(notices := w.notices - {s})
  }

  function Apply(setting: Setting, w: World, step: Step): World
    requires Enabled(setting, w, step)
  {
    Acted(setting, w, step).(now := step.at)
  }

  // ----- a sweep is its rows answered in turn -------------------------------

  function EmailedAll(b: Book, page: seq<Pending>, i: nat, at: Instant, results: nat -> SendResult): Book
    requires i <= |page|
    decreases |page| - i
  {
    if i == |page| then b else EmailedAll(Emailed(b, page[i], at, results(i)), page, i + 1, at, results)
  }

  lemma {:induction false} EmailSweepIsItsRows(p: EmailProgress, page: seq<Pending>, i: nat, at: Instant,
                                               results: nat -> SendResult)
    requires i <= |page|
    ensures EmailFrom(p, page, i, at, results).book == EmailedAll(p.book, page, i, at, results)
    decreases |page| - i
  {
    if i < |page| {
      EmailSweepIsItsRows(EmailOne(p, page[i], at, results(i)), page, i + 1, at, results);
    }
  }

  /** The ticket of a row, if its batch was fully answered. */
  function TicketOf(reply: Reply, chunk: seq<Pending>, i: nat): Option<Ticket>
    requires i < |chunk|
  {
    if FullyAnswered(reply, chunk) then Some(reply.tickets[i]) else None
  }

  function PushedAll(b: Book, chunk: seq<Pending>, i: nat, at: Instant, reply: Reply): Book
    requires i <= |chunk|
    decreases |chunk| - i
  {
    if i == |chunk| then b
    else PushedAll(Pushed(b, chunk[i], at, TicketOf(reply, chunk, i)), chunk, i + 1, at, reply)
  }

  lemma {:induction false} PushBatchIsItsRows(p: PushProgress, chunk: seq<Pending>, i: nat, at: Instant, reply: Reply)
    requires i <= |chunk|
    ensures ChunkFrom(p, chunk, i, at, reply).book == PushedAll(p.book, chunk, i, at, reply)
    decreases |chunk| - i
  {
    if i < |chunk| {
      PushBatchIsItsRows(PushOne(p, chunk, i, at, reply), chunk, i + 1, at, reply);
    }
  }

  // ----- what any number of sweeps keep -------------------------------------

  /** Some provider took a message about the alert. */
  predicate Given(b: Book, id: AlertId) {
    exists key | key in b.accepted :: key.alert == id
  }

  predicate GivenBy(b: Book, id: AlertId, channel: Channel) {
    exists key | key in b.accepted :: key.alert == id && key.channel == channel
  }

  /** An alert is stamped exactly when some provider took a message about it, and the channel named did. */
  predicate StampTrue(b: Book, id: AlertId)
    requires id in b.alerts
  {
    var alert := b.alerts[id];
    && (alert.delivered.Some? <==> Given(b, id))
    && (alert.via.Some? <==> alert.delivered.Some?)
    && (alert.via.Some? ==> GivenBy(b, id, alert.via.value))
  }

  /** Every message taken has a record, if not always its own; no record says sent of one that was not taken. */
  predicate BookTrue(b: Book) {
    && (forall id | id in b.alerts :: StampTrue(b, id))
    && (forall key | key in b.ledger :: key.alert in b.alerts)
    && (forall key | key in b.ledger && b.ledger[key] == Sent :: key in b.accepted)
    && (forall key | key in b.accepted :: key in b.ledger)
    && (forall id | id in b.notGiven :: id in b.alerts)
  }

  predicate AllKnown(b: Book, page: seq<AlertId>) {
    forall k | 0 <= k < |page| :: page[k] in b.alerts
  }

  predicate WorldTrue(w: World) {
    && BookTrue(w.book)
    && (forall s | s in w.flights :: Known(w.book, w.flights[s].rows))
    && (forall s | s in w.notices :: AllKnown(w.book, w.notices[s]))
  }

  /** Of what the sweeps agree on, an answer either makes one more message taken, or at most records a failure. */
  predicate Effect(b: Book, c: Book, key: Key, at: Instant, taken: bool) {
    && c.notGiven == b.notGiven
    && (taken ==>
          && c.alerts == Stamp(b.alerts, key.alert, key.channel, at) && c.ledger == Recorded(b.ledger, key, Sent)
          && c.accepted == b.accepted + [key])
    && (!taken ==>
          && c.alerts == b.alerts && c.accepted == b.accepted
          && (c.ledger == b.ledger || c.ledger == Recorded(b.ledger, key, Failed)))
  }

  function KeyOf(row: Pending, channel: Channel): Key {
    Key(row.alert, channel, row.target)
  }

  lemma AnswerHasEffect(b: Book, row: Pending, at: Instant, answer: Answer)
    ensures Effect(b, Answered(b, row, at, answer), KeyOf(row, answer.Channel()), at, answer.Taken())
  {
    match answer {
      case ByEmail(result) =>
      case ByPush(ticket) =>
    }
  }

  /** What one row leaves alone: other alerts, every alert's age, and what has been recorded, taken or noted. */
  predicate OnlyThisAlert(b: Book, c: Book, id: AlertId) {
    && c.alerts.Keys == b.alerts.Keys && (forall other | other in b.alerts :: c.alerts[other].created == b.alerts[other].created)
    && (forall other | other in b.alerts && other != id :: c.alerts[other] == b.alerts[other])
    && c.notGiven == b.notGiven && LedgerGrows(b, c) && b.accepted <= c.accepted
  }

  lemma EffectIsItsOwn(b: Book, c: Book, key: Key, at: Instant, taken: bool)
    requires Effect(b, c, key, at, taken)
    ensures OnlyThisAlert(b, c, key.alert)
  {
  }

  lemma TakenStamps(b: Book, c: Book, key: Key, at: Instant, id: AlertId)
    requires Effect(b, c, key, at, true) && id in b.alerts && StampTrue(b, id)
    ensures StampTrue(c, id)
  {
    assert key in c.accepted && forall other | other in b.accepted :: other in c.accepted;
    assert forall other | other in c.accepted :: other in b.accepted || other == key;
  }

  lemma EffectKeepsBookTrue(b: Book, c: Book, key: Key, at: Instant, taken: bool)
    requires Effect(b, c, key, at, taken) && BookTrue(b) && key.alert in b.alerts
    ensures BookTrue(c)
  {
    forall id | id in c.alerts ensures StampTrue(c, id) {
      assert StampTrue(b, id);
      if taken {
        TakenStamps(b, c, key, at, id);
      }
    }
    assert taken ==> key in c.accepted;
  }

  /** Records are never revised, what is taken or noted stays so, and alerts keep their age. */
  predicate KeepsFaith(b: Book, c: Book) {
    && LedgerGrows(b, c) && b.accepted <= c.accepted && b.notGiven <= c.notGiven
    && forall id | id in b.alerts :: id in c.alerts && c.alerts[id].created == b.alerts[id].created
  }

  lemma KnownStays(b: Book, c: Book, rows: seq<Pending>, gone: nat)
    requires Known(b, rows) && KeepsFaith(b, c) && gone <= |rows|
    ensures Known(c, rows[gone..])
  {
    assert forall k | 0 <= k < |rows[gone..]| :: rows[gone..][k] == rows[k + gone];
  }

  lemma AnswerKeepsWorldTrue(setting: Setting, w: World, at: Instant, s: SweepId, answer: Answer)
    requires WorldTrue(w) && Enabled(setting, w, Answer(at, s, answer))
    ensures var t := Apply(setting, w, Answer(at, s, answer));
      WorldTrue(t) && KeepsFaith(w.book, t.book) && OnlyThisAlert(w.book, t.book, w.flights[s].rows[0].alert)
  {
    var row, t := w.flights[s].rows[0], Apply(setting, w, Answer(at, s, answer));
    var key := KeyOf(row, answer.Channel());
    assert Known(w.book, w.flights[s].rows);
    AnswerHasEffect(w.book, row, at, answer);
    EffectIsItsOwn(w.book, t.book, key, at, answer.Taken());
    EffectKeepsBookTrue(w.book, t.book, key, at, answer.Taken());
    forall other | other in t.flights ensures Known(t.book, t.flights[other].rows) {
      KnownStays(w.book, t.book, w.flights[other].rows, if other == s then 1 else 0);
    }
    forall other | other in t.notices ensures AllKnown(t.book, t.notices[other]) {
      assert AllKnown(w.book, w.notices[other]);
    }
  }

  lemma RaiseKeepsWorldTrue(setting: Setting, w: World, at: Instant, id: AlertId)
    requires WorldTrue(w) && Enabled(setting, w, Raise(at, id))
    ensures var t := Apply(setting, w, Raise(at, id)); WorldTrue(t) && KeepsFaith(w.book, t.book)
  {
    var t := Apply(setting, w, Raise(at, id));
    forall other | other in t.book.alerts ensures StampTrue(t.book, other) {
      if other in w.book.alerts {
        assert StampTrue(w.book, other);
      }
    }
    forall s | s in t.flights ensures Known(t.book, t.flights[s].rows) { assert Known(w.book, w.flights[s].rows); }
    forall s | s in t.notices ensures AllKnown(t.book, t.notices[s]) { assert AllKnown(w.book, w.notices[s]); }
  }

  lemma WriteNoticeKeepsWorldTrue(setting: Setting, w: World, at: Instant, s: SweepId, works: bool)
    requires WorldTrue(w) && Enabled(setting, w, WriteNotice(at, s, works))
    ensures var t := Apply(setting, w, WriteNotice(at, s, works)); WorldTrue(t) && KeepsFaith(w.book, t.book)
  {
    var t := Apply(setting, w, WriteNotice(at, s, works));
    assert AllKnown(w.book, w.notices[s]);
    assert forall id | id in t.book.alerts :: StampTrue(w.book, id) && StampTrue(t.book, id);
    forall other | other in t.notices ensures AllKnown(t.book, t.notices[other]) {
      var gone := if other == s then 1 else 0;
      assert AllKnown(w.book, w.notices[other]) && t.notices[other] == w.notices[other][gone..];
    }
  }

  /** Every reading, answer and write of every sweep, in any interleaving. */
  lemma StepKeepsWorldTrue(setting: Setting, w: World, step: Step)
    requires WorldTrue(w) && Enabled(setting, w, step)
    ensures WorldTrue(Apply(setting, w, step)) && KeepsFaith(w.book, Apply(setting, w, step).book)
  {
    match step {
      case Raise(at, id) => RaiseKeepsWorldTrue(setting, w, at, id);
      case Answer(at, s, answer) => AnswerKeepsWorldTrue(setting, w, at, s, answer);
      case WriteNotice(at, s, works) => WriteNoticeKeepsWorldTrue(setting, w, at, s, works);
      case _ =>
    }
  }

  // ----- whole runs ---------------------------------------------------------

  const NOTHING: Book := Book(map[], map[], {}, {}, [], [], [])
  const START: World := World(0, NOTHING, map[], map[])

  datatype Run = Run(worlds: seq<World>, steps: seq<Step>)

  predicate StepTaken(setting: Setting, run: Run, i: nat)
    requires i < |run.steps| && |run.worlds| == |run.steps| + 1
  {
    Enabled(setting, run.worlds[i], run.steps[i]) && run.worlds[i + 1] == Apply(setting, run.worlds[i], run.steps[i])
  }

  /** Any interleaving of the three kinds, on one clock, whatever the providers answer and whichever sweep gives up. */
  predicate IsRun(setting: Setting, run: Run) {
    && |run.worlds| == |run.steps| + 1 && run.worlds[0] == START.(now := run.worlds[0].now)
    && forall i | 0 <= i < |run.steps| :: StepTaken(setting, run, i)
  }

  lemma {:induction false} TrueAlways(setting: Setting, run: Run, i: nat)
    requires IsRun(setting, run) && i < |run.worlds|
    ensures WorldTrue(run.worlds[i])
    decreases i
  {
    if i > 0 {
      TrueAlways(setting, run, i - 1);
      assert StepTaken(setting, run, i - 1);
      StepKeepsWorldTrue(setting, run.worlds[i - 1], run.steps[i - 1]);
    }
  }

  lemma {:induction false} FaithKept(setting: Setting, run: Run, i: nat, j: nat)
    requires IsRun(setting, run) && i <= j < |run.worlds|
    ensures KeepsFaith(run.worlds[i].book, run.worlds[j].book)
    decreases j
  {
    if i < j {
      FaithKept(setting, run, i, j - 1);
      TrueAlways(setting, run, j - 1);
      assert StepTaken(setting, run, j - 1);
      StepKeepsWorldTrue(setting, run.worlds[j - 1], run.steps[j - 1]);
    }
  }

  // ----- once each ----------------------------------------------------------

  /** No message was taken twice for one record, each that was is on record as sent, and no alert was noted twice. */
  predicate OnceEach(b: Book) {
    && (forall k, l | 0 <= k < l < |b.accepted| :: b.accepted[k] != b.accepted[l])
    && (forall key | key in b.accepted :: key in b.ledger && b.ledger[key] == Sent)
    && (forall k, l | 0 <= k < l < |b.notGiven| :: b.notGiven[k] != b.notGiven[l])
  }

  /** Nothing is taken for a row on record already, and nothing noted that has been. */
  predicate Fresh(setting: Setting, w: World, step: Step)
    requires Enabled(setting, w, step)
  {
    match step
    case Answer(_, s, answer) => answer.Taken() ==> KeyOf(w.flights[s].rows[0], answer.Channel()) !in w.book.ledger
    case WriteNotice(_, s, works) => works ==> w.notices[s][0] !in w.book.notGiven
    case _ => true
  }

  predicate FreshStep(setting: Setting, run: Run, i: nat)
    requires i < |run.steps| && |run.worlds| == |run.steps| + 1 && StepTaken(setting, run, i)
  {
    Fresh(setting, run.worlds[i], run.steps[i])
  }

  lemma FreshKeepsOnceEach(setting: Setting, w: World, step: Step)
    requires WorldTrue(w) && OnceEach(w.book) && Enabled(setting, w, step) && Fresh(setting, w, step)
    ensures OnceEach(Apply(setting, w, step).book)
  {
    match step {
      case Answer(at, s, answer) =>
        var row, t := w.flights[s].rows[0], Apply(setting, w, step);
        AnswerHasEffect(w.book, row, at, answer);
        OneMoreIsOnceEach(w.book, t.book, KeyOf(row, answer.Channel()), at, answer.Taken());
      case _ =>
    }
  }

  lemma OneMoreIsOnceEach(b: Book, c: Book, key: Key, at: Instant, taken: bool)
    requires BookTrue(b) && OnceEach(b) && Effect(b, c, key, at, taken) && (taken ==> key !in b.ledger)
    ensures OnceEach(c)
  {
    if taken {
      assert forall k | 0 <= k < |b.accepted| :: b.accepted[k] in b.accepted && b.accepted[k] != key;
    }
  }

  /** What was wrong once is never put right. */
  lemma OnceEachBefore(b: Book, c: Book)
    requires BookTrue(b) && KeepsFaith(b, c) && OnceEach(c)
    ensures OnceEach(b)
  {
    forall key | key in b.accepted ensures key in b.ledger && b.ledger[key] == Sent {
      assert key in c.accepted;
    }
  }

  lemma StaleIsNotOnceEach(setting: Setting, w: World, step: Step)
    requires WorldTrue(w) && Enabled(setting, w, step) && !Fresh(setting, w, step)
    ensures !OnceEach(Apply(setting, w, step).book)
  {
    var c := Apply(setting, w, step).book;
    match step {
      case Answer(at, s, answer) =>
        var row := w.flights[s].rows[0];
        AnswerHasEffect(w.book, row, at, answer);
        var key, n := KeyOf(row, answer.Channel()), |w.book.accepted|;
        assert c.accepted[n] == key && key in c.accepted;
        if w.book.ledger[key] == Sent {
          var k :| 0 <= k < n && w.book.accepted[k] == key;
          assert c.accepted[k] == c.accepted[n];
        }
      case WriteNotice(_, s, _) =>
        var id := w.notices[s][0];
        var k :| 0 <= k < |w.book.notGiven| && w.book.notGiven[k] == id;
        assert c.notGiven[k] == c.notGiven[|w.book.notGiven|];
      case _ =>
    }
  }

  /**
  Over any run of any number of sweeps: no message is taken twice, every one taken is on
  record as sent and no alert is noted twice, exactly when no provider took a message for
  a row that had been recorded since its sweep's reading, nor a notice likewise.
  */
  lemma OnceEachIffFresh(setting: Setting, run: Run)
    requires IsRun(setting, run)
    ensures OnceEach(Last(run).book) <==> forall i | 0 <= i < |run.steps| :: FreshStep(setting, run, i)
  {
    if i :| 0 <= i < |run.steps| && !FreshStep(setting, run, i) {
      TrueAlways(setting, run, i);
      TrueAlways(setting, run, i + 1);
      FaithKept(setting, run, i + 1, |run.steps|);
      assert StepTaken(setting, run, i);
      StaleIsNotOnceEach(setting, run.worlds[i], run.steps[i]);
      if OnceEach(Last(run).book) {
        OnceEachBefore(run.worlds[i + 1].book, Last(run).book);
      }
    } else {
      OnceEachSoFar(setting, run, |run.steps|);
    }
  }

  lemma {:induction false} OnceEachSoFar(setting: Setting, run: Run, i: nat)
    requires IsRun(setting, run) && i < |run.worlds| && forall k | 0 <= k < i :: FreshStep(setting, run, k)
    ensures OnceEach(run.worlds[i].book)
    decreases i
  {
    if i > 0 {
      OnceEachSoFar(setting, run, i - 1);
      TrueAlways(setting, run, i - 1);
      assert StepTaken(setting, run, i - 1) && FreshStep(setting, run, i - 1);
      FreshKeepsOnceEach(setting, run.worlds[i - 1], run.steps[i - 1]);
    }
  }

  // ----- each kind alone ----------------------------------------------------

  /** A page still to be written down: alerts not noted, each once. */
  predicate Unnoted(b: Book, page: seq<AlertId>) {
    && (forall k | 0 <= k < |page| :: page[k] !in b.notGiven)
    && forall k, l | 0 <= k < l < |page| :: page[k] != page[l]
  }

  /** At most one sweep of a kind is in flight, and nothing it has still to answer is on record. */
  predicate EachAlone(w: World) {
    && (forall s, t | s in w.flights && t in w.flights && w.flights[s].channel == w.flights[t].channel :: s == t)
    && (forall s | s in w.flights :: Unanswered(w.book, w.flights[s].rows, w.flights[s].channel))
    && (forall s, t | s in w.notices && t in w.notices :: s == t)
    && forall s | s in w.notices :: Unnoted(w.book, w.notices[s])
  }

  lemma RestUnanswered(b: Book, c: Book, rows: seq<Pending>, channel: Channel, at: Instant, taken: bool)
    requires rows != [] && Unanswered(b, rows, channel) && Effect(b, c, KeyOf(rows[0], channel), at, taken)
    ensures Unanswered(c, rows[1..], channel)
  {
    var rest := rows[1..];
    forall k | 0 <= k < |rest| ensures rest[k] == rows[k + 1] {}
    forall k | 0 <= k < |rest| ensures Key(rest[k].alert, channel, rest[k].target) !in c.ledger {
      assert rows[0].alert != rows[k + 1].alert || rows[0].target != rows[k + 1].target;
    }
  }

  lemma AnswerKeepsAlone(setting: Setting, w: World, at: Instant, s: SweepId, answer: Answer)
    requires EachAlone(w) && Enabled(setting, w, Answer(at, s, answer))
    ensures EachAlone(Apply(setting, w, Answer(at, s, answer)))
  {
    var f, t := w.flights[s], Apply(setting, w, Answer(at, s, answer));
    AnswerHasEffect(w.book, f.rows[0], at, answer);
    assert Unanswered(w.book, f.rows, f.channel);
    RestUnanswered(w.book, t.book, f.rows, f.channel, at, answer.Taken());
    forall other | other in t.flights ensures Unanswered(t.book, t.flights[other].rows, t.flights[other].channel) {
      assert Unanswered(w.book, w.flights[other].rows, w.flights[other].channel);
      assert other != s ==> w.flights[other].channel != f.channel;
    }
    assert forall other | other in t.notices :: Unnoted(w.book, w.notices[other]) && Unnoted(t.book, t.notices[other]);
  }

  lemma WriteNoticeKeepsAlone(setting: Setting, w: World, at: Instant, s: SweepId, works: bool)
    requires EachAlone(w) && Enabled(setting, w, WriteNotice(at, s, works))
    ensures EachAlone(Apply(setting, w, WriteNotice(at, s, works)))
  {
    var page, t := w.notices[s], Apply(setting, w, WriteNotice(at, s, works));
    assert Unnoted(w.book, page);
    forall k | 0 <= k < |page[1..]| ensures page[1..][k] == page[k + 1] && page[k + 1] != page[0] {}
    assert forall other | other in t.flights ::
      Unanswered(w.book, w.flights[other].rows, w.flights[other].channel)
      && Unanswered(t.book, t.flights[other].rows, t.flights[other].channel);
  }

  lemma StepKeepsAlone(setting: Setting, w: World, step: Step)
    requires setting.alone && EachAlone(w) && Enabled(setting, w, step)
    ensures EachAlone(Apply(setting, w, step)) && Fresh(setting, w, step)
  {
    match step {
      case Answer(at, s, answer) =>
        assert Unanswered(w.book, w.flights[s].rows, w.flights[s].channel);
        AnswerKeepsAlone(setting, w, at, s, answer);
      case WriteNotice(at, s, works) =>
        assert Unnoted(w.book, w.notices[s]);
        WriteNoticeKeepsAlone(setting, w, at, s, works);
      case _ =>
    }
  }

  lemma {:induction false} AloneAlways(setting: Setting, run: Run, i: nat)
    requires IsRun(setting, run) && i < |run.worlds| && setting.alone
    ensures EachAlone(run.worlds[i]) && OnceEach(run.worlds[i].book)
    decreases i
  {
    if i > 0 {
      AloneAlways(setting, run, i - 1);
      TrueAlways(setting, run, i - 1);
      assert StepTaken(setting, run, i - 1);
      StepKeepsAlone(setting, run.worlds[i - 1], run.steps[i - 1]);
      FreshKeepsOnceEach(setting, run.worlds[i - 1], run.steps[i - 1]);
    }
  }

  // ----- the records agree --------------------------------------------------

  predicate SentBy(ledger: map<Key, Status>, key: Key, id: AlertId) {
    key in ledger && ledger[key] == Sent && key.alert == id
  }

  ghost predicate Reached(ledger: map<Key, Status>, id: AlertId) {
    exists key :: SentBy(ledger, key, id)
  }

  ghost predicate ReachedBy(ledger: map<Key, Status>, id: AlertId, channel: Channel) {
    exists key :: SentBy(ledger, key, id) && key.channel == channel
  }

  /** A stamp says what the records say: delivered exactly when some record says sent, by a channel that sent it. */
  ghost predicate StampAgrees(b: Book, id: AlertId)
    requires id in b.alerts
  {
    && (b.alerts[id].delivered.Some? <==> Reached(b.ledger, id))
    && (b.alerts[id].via.Some? ==> ReachedBy(b.ledger, id, b.alerts[id].via.value))
  }

  ghost predicate Agree(b: Book) {
    OnceEach(b) && forall id | id in b.alerts :: StampAgrees(b, id)
  }

  lemma OnceEachAgrees(b: Book)
    requires BookTrue(b) && OnceEach(b)
    ensures Agree(b)
  {
    forall id | id in b.alerts ensures StampAgrees(b, id) {
      assert StampTrue(b, id);
      if Given(b, id) {
        var key :| key in b.accepted && key.alert == id;
        assert SentBy(b.ledger, key, id);
      }
      if b.alerts[id].via.Some? {
        var key :| key in b.accepted && key.alert == id && key.channel == b.alerts[id].via.value;
        assert SentBy(b.ledger, key, id);
      }
    }
  }

  /**
  With each kind alone, in every state of every run: an alert is stamped delivered exactly
  when some record says sent, no recipient of it was written to successfully twice on one
  channel, and each is recorded "not given" at most once.
  */
  lemma RecordsAgree(setting: Setting, run: Run, i: nat)
    requires IsRun(setting, run) && i < |run.worlds| && setting.alone
    ensures Agree(run.worlds[i].book)
  {
    TrueAlways(setting, run, i);
    AloneAlways(setting, run, i);
    OnceEachAgrees(run.worlds[i].book);
  }

  ghost predicate AlwaysAgree(setting: Setting) {
    forall run: Run, i: nat :: IsRun(setting, run) && i < |run.worlds| ==> Agree(run.worlds[i].book)
  }

  /** The records agree over every interleaving exactly when no sweep starts beside another of its kind. */
  lemma RecordsAgreeIff(setting: Setting)
    requires WithinTheWindow(setting)
    ensures AlwaysAgree(setting) <==> setting.alone
  {
    if setting.alone {
      forall run: Run, i: nat | IsRun(setting, run) && i < |run.worlds| ensures Agree(run.worlds[i].book) {
        RecordsAgree(setting, run, i);
      }
    } else {
      var run := SentTwice(setting);
      var b := run.worlds[|run.worlds| - 1].book;
      assert b.accepted[0] == b.accepted[1];
    }
  }

  // ----- never given, never delivered ---------------------------------------

  /** Undelivered, and too old for any pending query. */
  predicate PastHelp(w: World, id: AlertId) {
    id in w.book.alerts && w.book.alerts[id].created < w.now - WINDOW && w.book.alerts[id].delivered == None
  }

  predicate ReadInTime(setting: Setting, f: Flight) {
    forall k | 0 <= k < |f.rows| :: f.rows[k].created >= f.readAt - setting.readBy
  }

  predicate AllPastHelp(w: World, page: seq<AlertId>) {
    forall k | 0 <= k < |page| :: PastHelp(w, page[k])
  }

  /** Whatever is noted or about to be is past help; whatever is being answered was read in time. */
  predicate Timed(setting: Setting, w: World) {
    && AllPastHelp(w, w.book.notGiven)
    && (forall s | s in w.notices :: AllPastHelp(w, w.notices[s]))
    && forall s | s in w.flights :: ReadInTime(setting, w.flights[s])
  }

  /** Time passes, and what was past help stays so. */
  lemma PastHelpStays(w: World, t: World, page: seq<AlertId>, gone: nat)
    requires AllPastHelp(w, page) && gone <= |page| && forall id | PastHelp(w, id) :: PastHelp(t, id)
    ensures AllPastHelp(t, page[gone..])
  {
    assert forall k | 0 <= k < |page[gone..]| :: page[gone..][k] == page[k + gone] && PastHelp(w, page[k + gone]);
  }

  /** A row answered in time is none of an alert's that is past help. */
  lemma AnswersSpare(setting: Setting, w: World, at: Instant, s: SweepId, answer: Answer, id: AlertId)
    requires AnswersInTime(setting) && WorldTrue(w) && Timed(setting, w) && Enabled(setting, w, Answer(at, s, answer))
    requires PastHelp(w, id)
    ensures PastHelp(Apply(setting, w, Answer(at, s, answer)), id)
  {
    AnswerKeepsWorldTrue(setting, w, at, s, answer);
    assert ReadInTime(setting, w.flights[s]) && Known(w.book, w.flights[s].rows);
  }

  lemma PastHelpForGood(setting: Setting, w: World, step: Step, id: AlertId)
    requires AnswersInTime(setting) && WorldTrue(w) && Timed(setting, w) && Enabled(setting, w, step) && PastHelp(w, id)
    ensures PastHelp(Apply(setting, w, step), id)
  {
    match step {
      case Answer(at, s, answer) => AnswersSpare(setting, w, at, s, answer, id);
      case _ =>
    }
  }

  lemma NothingNotedEarly(setting: Setting, w: World, step: Step)
    requires Timed(setting, w) && Enabled(setting, w, step)
    requires var t := Apply(setting, w, step); forall id | PastHelp(w, id) :: PastHelp(t, id)
    ensures var t := Apply(setting, w, step);
      AllPastHelp(t, t.book.notGiven) && forall s | s in t.notices :: AllPastHelp(t, t.notices[s])
  {
    var t := Apply(setting, w, step);
    forall s | s in t.notices && s in w.notices ensures AllPastHelp(t, t.notices[s]) {
      assert AllPastHelp(w, w.notices[s]);
      PastHelpStays(w, t, w.notices[s], if step.WriteNotice? && step.s == s then 1 else 0);
    }
    if step.WriteNotice? {
      assert AllPastHelp(w, w.notices[step.s]) && PastHelp(w, w.notices[step.s][0]);
    } else if step.Answer? {
      AnswerHasEffect(w.book, w.flights[step.s].rows[0], step.at, step.answer);
    }
  }

  lemma TimedStep(setting: Setting, w: World, step: Step)
    requires AnswersInTime(setting) && WorldTrue(w) && Timed(setting, w) && Enabled(setting, w, step)
    ensures Timed(setting, Apply(setting, w, step))
  {
    var t := Apply(setting, w, step);
    forall id | PastHelp(w, id) ensures PastHelp(t, id) { PastHelpForGood(setting, w, step, id); }
    NothingNotedEarly(setting, w, step);
    forall s | s in t.flights ensures ReadInTime(setting, t.flights[s]) {
      assert s in w.flights ==> ReadInTime(setting, w.flights[s]);
    }
  }

  lemma {:induction false} TimedAlways(setting: Setting, run: Run, i: nat)
    requires AnswersInTime(setting) && IsRun(setting, run) && i < |run.worlds|
    ensures Timed(setting, run.worlds[i])
    decreases i
  {
    if i > 0 {
      TimedAlways(setting, run, i - 1);
      TrueAlways(setting, run, i - 1);
      assert StepTaken(setting, run, i - 1);
      TimedStep(setting, run.worlds[i - 1], run.steps[i - 1]);
    }
  }

  /** Once recorded as never given, an alert is never delivered; once recorded at all, a delivery is never revised. */
  lemma NotGivenIsFinal(setting: Setting, run: Run, i: nat, j: nat, id: AlertId)
    requires AnswersInTime(setting) && IsRun(setting, run) && i <= j < |run.worlds| && id in run.worlds[i].book.notGiven
    ensures var b := run.worlds[j].book; id in b.alerts && b.alerts[id].delivered == None && !Given(b, id) && !Reached(b.ledger, id)
    ensures LedgerGrows(run.worlds[i].book, run.worlds[j].book)
  {
    FaithKept(setting, run, i, j);
    TimedAlways(setting, run, j);
    TrueAlways(setting, run, j);
    var b := run.worlds[j].book;
    assert id in b.notGiven;
    var k :| 0 <= k < |b.notGiven| && b.notGiven[k] == id;
    assert PastHelp(run.worlds[j], b.notGiven[k]) && StampTrue(b, id);
    forall key ensures !SentBy(b.ledger, key, id) {
      assert SentBy(b.ledger, key, id) ==> key in b.accepted;
    }
  }

  /** No alert is both on record as never given and stamped delivered. */
  predicate NeverBoth(b: Book) {
    forall id | id in b.notGiven && id in b.alerts :: b.alerts[id].delivered == None
  }

  ghost predicate AlwaysFinal(setting: Setting) {
    forall run: Run, i: nat :: IsRun(setting, run) && i < |run.worlds| ==> NeverBoth(run.worlds[i].book)
  }

  /**
  "Never given" is final over every interleaving of any number of sweeps exactly when age
  at the reading and time to the answer together stay within seven days. The queries read
  up to the window's last millisecond, so a sweep that answers even two later is enough to
  make both records true.
  */
  lemma NotGivenIsFinalIff(setting: Setting)
    requires WithinTheWindow(setting)
    ensures AlwaysFinal(setting) <==> setting.readBy + setting.lag <= 604_800_000
  {
    if AnswersInTime(setting) {
      forall run: Run, i: nat | IsRun(setting, run) && i < |run.worlds| ensures NeverBoth(run.worlds[i].book) {
        forall id | id in run.worlds[i].book.notGiven && id in run.worlds[i].book.alerts
          ensures run.worlds[i].book.alerts[id].delivered == None
        {
          NotGivenIsFinal(setting, run, i, i, id);
        }
      }
    } else {
      var run := OvertakenRun(setting);
      assert !NeverBoth(run.worlds[|run.worlds| - 1].book);
    }
  }

  // ----- runs that go wrong -------------------------------------------------

  function Last(run: Run): World
    requires |run.worlds| > 0
  {
    run.worlds[|run.worlds| - 1]
  }

  function Then(setting: Setting, run: Run, step: Step): (r: Run)
    requires IsRun(setting, run) && Enabled(setting, Last(run), step)
    ensures IsRun(setting, r) && Last(r) == Apply(setting, Last(run), step)
  {
    var r := Run(run.worlds + [Apply(setting, Last(run), step)], run.steps + [step]);
    assert IsRun(setting, r) by {
      forall i | 0 <= i < |r.steps| ensures StepTaken(setting, r, i) {
        if i < |run.steps| { assert StepTaken(setting, run, i); }
      }
    }
    r
  }

  const ROW: Pending := Pending(0, 0, 0, 0)

  /** Raised at zero, read at the last moment the query allows, and overdue before it is answered. */
  lemma OvertakenRun(setting: Setting) returns (run: Run)
    requires WithinTheWindow(setting) && !AnswersInTime(setting)
    ensures IsRun(setting, run) && !NeverBoth(Last(run).book)
  {
    var late := WINDOW + 1;
    run := Run([START], []);
    run := Then(setting, run, Raise(0, 0));
    run := Then(setting, run, ReadPending(setting.readBy, 0, Email, [ROW]));
    run := Then(setting, run, ReadNotices(late, 0, [0]));
    run := Then(setting, run, WriteNotice(late, 0, true));
    assert Last(run).book.notGiven == [0];
    run := Then(setting, run, Answer(late, 0, ByEmail(Accepted)));
    assert Last(run).book.alerts[0].delivered == Some(late);
  }

  lemma BothRead(setting: Setting) returns (run: Run)
    requires WithinTheWindow(setting) && !setting.alone
    ensures IsRun(setting, run)
    ensures var f := Flight(Email, [ROW], 0);
      Last(run) == World(0, NOTHING.(alerts := map[0 := Alert(0, None, None)]), map[0 := f, 1 := f], map[])
  {
    run := Run([START], []);
    run := Then(setting, run, Raise(0, 0));
    run := Then(setting, run, ReadPending(0, 0, Email, [ROW]));
    run := Then(setting, run, ReadPending(0, 1, Email, [ROW]));
  }

  /** Two sweeps of one kind both read a row before either writes: one person is sent the notice twice. */
  lemma SentTwice(setting: Setting) returns (run: Run)
    requires WithinTheWindow(setting) && !setting.alone
    ensures IsRun(setting, run) && Last(run).book.accepted == [EmailKey(ROW), EmailKey(ROW)]
  {
    run := BothRead(setting);
    run := Then(setting, run, Answer(0, 0, ByEmail(Accepted)));
    run := Then(setting, run, Answer(0, 1, ByEmail(Accepted)));
  }
}
