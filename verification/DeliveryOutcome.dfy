/**
What each delivery sweep comes to, told from the page and the answers alone: what is on
record of whom, which alerts are stamped, who is suppressed or disabled, and every count.
*/
module DeliveryOutcome {
  import opened Counting
  import opened Options
  import opened Delivery
  import opened DeliveryTheorems

  /** Six days, in milliseconds: the last day of the window is for giving up in. */
  predicate LastDay(created: Instant, at: Instant) {
    at - created >= 518_400_000
  }

  predicate Transient(result: SendResult) {
    result == SoftBounce || result == ProviderError
  }

  // ----- email: the record --------------------------------------------------

  /** A row is sent, failed, or, put off before its last day, not on record at all, by its own answer. */
  lemma EmailRecord(b: Book, page: seq<Pending>, at: Instant, results: nat -> SendResult, k: nat)
    requires Unanswered(b, page, Email) && k < |page|
    ensures var key, u := Key(page[k].alert, Email, page[k].target), EmailSwept(b, page, at, results).book;
      && (results(k) == Accepted ==> key in u.ledger && u.ledger[key] == Sent)
      && (results(k) == HardBounce || results(k) == Refused ==> key in u.ledger && u.ledger[key] == Failed)
      && (Transient(results(k)) && LastDay(page[k].created, at) ==> key in u.ledger && u.ledger[key] == Failed)
      && (Transient(results(k)) && !LastDay(page[k].created, at) ==> key !in u.ledger)
  {
    assert page[0..] == page;
    EveryRowGetsItsOwnAnswer(EmailProgress(b, NO_EMAIL), page, 0, at, results, k);
  }

  /** What the email sweep leaves alone, and that no record of another is made or changed. */
  lemma {:induction false} EmailElsewhere(p: EmailProgress, page: seq<Pending>, i: nat, at: Instant,
                                          results: nat -> SendResult, key: Key)
    requires i <= |page| && forall k | i <= k < |page| :: Key(page[k].alert, Email, page[k].target) != key
    ensures var u := EmailFrom(p, page, i, at, results).book;
      && Found(u, key) == Found(p.book, key) && u.disabled == p.book.disabled && u.notGiven == p.book.notGiven
      && u.alerts.Keys == p.book.alerts.Keys
    decreases |page| - i
  {
    if i < |page| {
      EmailElsewhere(EmailOne(p, page[i], at, results(i)), page, i + 1, at, results, key);
    }
  }

  // ----- email: stamps and suppressions -------------------------------------

  predicate EmailTaken(page: seq<Pending>, i: nat, results: nat -> SendResult, id: AlertId) {
    exists k | i <= k < |page| :: page[k].alert == id && results(k) == Accepted
  }

  /** An alert is stamped by the first message about it that is taken, and keeps the stamp and the channel it had. */
  lemma {:induction false} EmailStamps(p: EmailProgress, page: seq<Pending>, i: nat, at: Instant,
                                       results: nat -> SendResult, id: AlertId)
    requires i <= |page| && id in p.book.alerts
    ensures var was, u := p.book.alerts[id], EmailFrom(p, page, i, at, results).book;
      id in u.alerts
      && var now := u.alerts[id];
         && now.created == was.created
         && now.delivered == (if was.delivered.Some? then was.delivered
                              else if EmailTaken(page, i, results, id) then Some(at) else None)
         && now.via == (if was.via.Some? then was.via else if EmailTaken(page, i, results, id) then Some(Email) else None)
    decreases |page| - i
  {
    if i < |page| {
      var q := EmailOne(p, page[i], at, results(i));
      EmailStamps(q, page, i + 1, at, results, id);
      assert EmailTaken(page, i, results, id) <==>
        (page[i].alert == id && results(i) == Accepted) || EmailTaken(page, i + 1, results, id);
    }
  }

  predicate Bounced(page: seq<Pending>, i: nat, results: nat -> SendResult, address: Address) {
    exists k | i <= k < |page| :: page[k].address == address && results(k) == HardBounce
  }

  /** An address is suppressed exactly when it was, or a message to it bounced for good. */
  lemma {:induction false} EmailSuppresses(p: EmailProgress, page: seq<Pending>, i: nat, at: Instant,
                                           results: nat -> SendResult, address: Address)
    requires i <= |page|
    ensures address in EmailFrom(p, page, i, at, results).book.suppressed <==>
      address in p.book.suppressed || Bounced(page, i, results, address)
    decreases |page| - i
  {
    if i < |page| {
      EmailSuppresses(EmailOne(p, page[i], at, results(i)), page, i + 1, at, results, address);
      assert Bounced(page, i, results, address) <==>
        (page[i].address == address && results(i) == HardBounce) || Bounced(page, i + 1, results, address);
    }
  }

  // ----- email: the counts --------------------------------------------------

  /** Each count is of the rows answered that way: all six of them. */
  lemma EmailCounts(b: Book, page: seq<Pending>, at: Instant, results: nat -> SendResult)
    ensures var t := EmailSwept(b, page, at, results).tally;
      && t.sent == |set k: nat | k < |page| && results(k) == Accepted|
      && t.suppressed == |set k: nat | k < |page| && results(k) == HardBounce|
      && t.deferred == |set k: nat | k < |page| && Transient(results(k)) && !LastDay(page[k].created, at)|
      && t.abandoned == |set k: nat | k < |page| && Transient(results(k)) && LastDay(page[k].created, at)|
      && t.attempted + t.deferred == |page| && t.sent + t.failed == t.attempted
  {
    EmailTallyIsExact(EmailProgress(b, NO_EMAIL), page, 0, at, results);
    EmailSweepConserves(b, page, at, results);
    AnsweredAre(results, Accepted, |page|);
    AnsweredAre(results, HardBounce, |page|);
    PutOffAre(page, at, results);
  }

  lemma AnsweredAre(results: nat -> SendResult, answer: SendResult, n: nat)
    ensures Number(Answering(results, answer), 0, n) == |set k: nat | k < n && results(k) == answer|
  {
    NumberOfThese(Answering(results, answer), n, set k: nat | k < n && results(k) == answer);
  }

  lemma PutOffAre(page: seq<Pending>, at: Instant, results: nat -> SendResult)
    ensures Number(Deferring(page, at, results), 0, |page|)
         == |set k: nat | k < |page| && Transient(results(k)) && !LastDay(page[k].created, at)|
    ensures Number(GivingUp(page, at, results), 0, |page|)
         == |set k: nat | k < |page| && Transient(results(k)) && LastDay(page[k].created, at)|
  {
    NumberOfThese(Deferring(page, at, results), |page|,
                  set k: nat | k < |page| && Transient(results(k)) && !LastDay(page[k].created, at));
    NumberOfThese(GivingUp(page, at, results), |page|,
                  set k: nat | k < |page| && Transient(results(k)) && LastDay(page[k].created, at));
  }

  // ----- push: batches of a hundred -----------------------------------------

  /** Row `k` of the page is row `k % 100` of batch `k / 100`, which is a hundred rows or what is left. */
  lemma {:induction false} BatchOfRow(page: seq<Pending>, k: nat)
    requires k < |page|
    ensures var chunks, d := Slices(page, BATCH_SIZE), k / 100;
      && d < |chunks| && k % 100 < |chunks[d]| && chunks[d][k % 100] == page[k]
      && |chunks[d]| == if |page| - 100 * d < 100 then |page| - 100 * d else 100
    decreases |page|
  {
    if |page| > 100 {
      var chunks, rest := Slices(page, BATCH_SIZE), Slices(page[100..], BATCH_SIZE);
      assert chunks == [page[..100]] + rest;
      if k >= 100 {
        BatchOfRow(page[100..], k - 100);
        assert (k - 100) / 100 == k / 100 - 1 && (k - 100) % 100 == k % 100;
        assert page[100..][k - 100] == page[k];
        assert chunks[k / 100] == rest[k / 100 - 1];
      }
    }
  }

  /** The provider answered for every message of the batch. */
  predicate Answered(reply: Reply, chunk: seq<Pending>) {
    reply.Tickets? && |chunk| <= |reply.tickets|
  }

  /** A row's record is its own ticket's; where its batch was not fully answered it has none before its last day. */
  lemma PushRecord(b: Book, page: seq<Pending>, at: Instant, replies: nat -> Reply, k: nat)
    requires Unanswered(b, page, Push) && k < |page|
    ensures var chunks, d := Slices(page, BATCH_SIZE), k / 100;
      d < |chunks|
      && var key, u, reply := Key(page[k].alert, Push, page[k].target), PushSwept(b, page, at, replies).book, replies(d);
         && (Answered(reply, chunks[d]) && k % 100 < |chunks[d]| ==>
               key in u.ledger && u.ledger[key] == if reply.tickets[k % 100] == Taken then Sent else Failed)
         && (!Answered(reply, chunks[d]) && LastDay(page[k].created, at) ==> key in u.ledger && u.ledger[key] == Failed)
         && (!Answered(reply, chunks[d]) && !LastDay(page[k].created, at) ==> key !in u.ledger)
  {
    BatchOfRow(page, k);
    EveryRowGetsItsOwnTicket(b, page, at, replies, k / 100, k % 100);
  }

  predicate TicketTaken(chunk: seq<Pending>, i: nat, reply: Reply, id: AlertId) {
    Answered(reply, chunk) && exists k | i <= k < |chunk| :: chunk[k].alert == id && reply.tickets[k] == Taken
  }

  /** What one batch's tickets do to an alert: push takes the credit for the channel whoever had it. */
  predicate Credited(was: Alert, now: Alert, at: Instant, taken: bool) {
    && now.created == was.created
    && now.delivered == (if was.delivered.Some? then was.delivered else if taken then Some(at) else None)
    && now.via == (if taken then Some(Push) else was.via)
  }

  lemma {:induction false} BatchStamps(p: PushProgress, chunk: seq<Pending>, i: nat, at: Instant, reply: Reply, id: AlertId)
    requires i <= |chunk| && id in p.book.alerts
    ensures var u := ChunkFrom(p, chunk, i, at, reply).book;
      id in u.alerts && Credited(p.book.alerts[id], u.alerts[id], at, TicketTaken(chunk, i, reply, id))
    decreases |chunk| - i
  {
    if i < |chunk| {
      var q := PushOne(p, chunk, i, at, reply);
      BatchStamps(q, chunk, i + 1, at, reply, id);
      assert TicketTaken(chunk, i, reply, id) <==>
        (Answered(reply, chunk) && chunk[i].alert == id && reply.tickets[i] == Taken) || TicketTaken(chunk, i + 1, reply, id);
    }
  }

  predicate SomeTaken(chunks: seq<seq<Pending>>, c: nat, replies: nat -> Reply, id: AlertId) {
    exists d | c <= d < |chunks| :: TicketTaken(chunks[d], 0, replies(d), id)
  }

  lemma {:induction false} BatchesStamp(p: PushProgress, chunks: seq<seq<Pending>>, c: nat, at: Instant,
                                        replies: nat -> Reply, id: AlertId)
    requires c <= |chunks| && id in p.book.alerts
    ensures var u := ChunksFrom(p, chunks, c, at, replies).book;
      id in u.alerts && Credited(p.book.alerts[id], u.alerts[id], at, SomeTaken(chunks, c, replies, id))
    decreases |chunks| - c
  {
    if c < |chunks| {
      BatchStamps(p, chunks[c], 0, at, replies(c), id);
      BatchesStamp(ChunkFrom(p, chunks[c], 0, at, replies(c)), chunks, c + 1, at, replies, id);
      assert SomeTaken(chunks, c, replies, id) <==>
        TicketTaken(chunks[c], 0, replies(c), id) || SomeTaken(chunks, c + 1, replies, id);
    }
  }

  /** Over the whole sweep, an alert is stamped, and push credited, exactly when some ticket of its own says taken. */
  lemma PushStamps(b: Book, page: seq<Pending>, at: Instant, replies: nat -> Reply, id: AlertId)
    requires id in b.alerts
    ensures var u, chunks := PushSwept(b, page, at, replies).book, Slices(page, BATCH_SIZE);
      id in u.alerts && Credited(b.alerts[id], u.alerts[id], at, SomeTaken(chunks, 0, replies, id))
  {
    BatchesStamp(PushProgress(b, NO_PUSH), Slices(page, BATCH_SIZE), 0, at, replies, id);
  }

  /** A batch's counts: of its tickets where it was fully answered, and otherwise of its rows by their age. */
  lemma BatchCounts(p: PushProgress, chunk: seq<Pending>, at: Instant, reply: Reply)
    ensures var t, n := ChunkFrom(p, chunk, 0, at, reply).tally, |chunk|;
      if Answered(reply, chunk) then
        && t.attempted == p.tally.attempted + n && t.deferred == p.tally.deferred && t.abandoned == p.tally.abandoned
        && t.delivered == p.tally.delivered + |set k: nat | k < n && reply.tickets[k] == Taken|
        && t.tokensDisabled == p.tally.tokensDisabled + |set k: nat | k < n && reply.tickets[k] == DeviceNotRegistered|
        && t.delivered + t.failed == p.tally.delivered + p.tally.failed + n
      else
        && t.attempted == p.tally.attempted && t.delivered == p.tally.delivered && t.failed == p.tally.failed
        && t.tokensDisabled == p.tally.tokensDisabled
        && t.abandoned == p.tally.abandoned + |set k: nat | k < n && LastDay(chunk[k].created, at)|
        && t.deferred + t.abandoned == p.tally.deferred + p.tally.abandoned + n
  {
    var n := |chunk|;
    ChunkTallyIsExact(p, chunk, 0, at, reply);
    BatchTotals(p, chunk, 0, at, reply);
    if Answered(reply, chunk) {
      NumberIsOfCalls(TicketIs(reply, Taken), n);
      NumberIsOfCalls(TicketIs(reply, DeviceNotRegistered), n);
      assert (set k: nat | k < n && TicketIs(reply, Taken)(k)) == set k: nat | k < n && reply.tickets[k] == Taken;
      assert (set k: nat | k < n && TicketIs(reply, DeviceNotRegistered)(k))
          == set k: nat | k < n && reply.tickets[k] == DeviceNotRegistered;
    } else {
      NumberIsOfCalls(TooOld(chunk, at), n);
      assert (set k: nat | k < n && TooOld(chunk, at)(k)) == set k: nat | k < n && LastDay(chunk[k].created, at);
    }
  }

  lemma {:induction false} BatchTotals(p: PushProgress, chunk: seq<Pending>, i: nat, at: Instant, reply: Reply)
    requires i <= |chunk|
    ensures var t := ChunkFrom(p, chunk, i, at, reply).tally;
      if Answered(reply, chunk) then
        t.attempted == p.tally.attempted + |chunk| - i && t.delivered + t.failed == p.tally.delivered + p.tally.failed + |chunk| - i
      else
        t.deferred + t.abandoned == p.tally.deferred + p.tally.abandoned + |chunk| - i
    decreases |chunk| - i
  {
    if i < |chunk| {
      BatchTotals(PushOne(p, chunk, i, at, reply), chunk, i + 1, at, reply);
    }
  }

  // ----- notices ------------------------------------------------------------

  /** The log gains the notices whose writes work, in order, and the count is of them. */
  lemma {:induction false} NoticesWritten(p: NoticeProgress, page: seq<AlertId>, i: nat, writes: nat -> bool, k: nat)
    requires i <= |page|
    ensures var r := NoticeFrom(p, page, i, writes);
      && r.book == p.book.(notGiven := r.book.notGiven) && p.book.notGiven <= r.book.notGiven
      && |r.book.notGiven| == |p.book.notGiven| + Number(writes, i, |page|)
      && r.recorded == p.recorded + Number(writes, i, |page|)
      && (i <= k < |page| && writes(k) ==>
            Number(writes, i, k) < Number(writes, i, |page|)
            && r.book.notGiven[|p.book.notGiven| + Number(writes, i, k)] == page[k])
    decreases |page| - i
  {
    if i < |page| {
      var q := if writes(i) then NoticeProgress(p.book.(notGiven := p.book.notGiven + [page[i]]), p.recorded + 1) else p;
      NoticesWritten(q, page, i + 1, writes, k);
    }
  }
}
