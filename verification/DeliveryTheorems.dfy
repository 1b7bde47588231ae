/**
What one delivery sweep promises: nothing lost between batches, every row counted
once and given its own answer, and the write-off that gets a record in before the
window shuts.
*/
module DeliveryTheorems {
  import opened Counting
  import opened Options
  import opened Delivery

  // ----- batches ------------------------------------------------------------

  function Flat<T>(batches: seq<seq<T>>): seq<T> {
    if batches == [] then [] else batches[0] + Flat(batches[1..])
  }

  /** The batches are the list, cut: back to back they are it, none is empty, and only the last may fall short. */
  lemma {:induction false} BatchesPartition<T>(items: seq<T>, size: nat)
    requires size > 0
    ensures var batches := Slices(items, size);
      && Flat(batches) == items
      && (forall k | 0 <= k < |batches| :: 0 < |batches[k]| <= size)
      && (forall k | 0 <= k < |batches| - 1 :: |batches[k]| == size)
    decreases |items|
  {
    var batches := Slices(items, size);
    if items == [] {
    } else if |items| <= size {
      assert Flat([items]) == items + Flat<T>([]);
    } else {
      BatchesPartition(items[size..], size);
      assert batches[1..] == Slices(items[size..], size);
      assert items == items[..size] + items[size..];
      assert forall k | 1 <= k < |batches| :: batches[k] == batches[1..][k - 1];
    }
  }

  // ----- every row is counted once ------------------------------------------

  predicate EmailBalanced(t: EmailTally, rows: nat) {
    t.attempted + t.deferred == rows && t.sent + t.failed == t.attempted && t.suppressed + t.abandoned <= t.failed
  }

  lemma {:induction false} EmailConserves(p: EmailProgress, page: seq<Pending>, i: nat, at: Instant,
                                          results: nat -> SendResult)
    requires i <= |page| && EmailBalanced(p.tally, i)
    ensures EmailBalanced(EmailFrom(p, page, i, at, results).tally, |page|)
    decreases |page| - i
  {
    if i < |page| {
      EmailConserves(EmailOne(p, page[i], at, results(i)), page, i + 1, at, results);
    }
  }

  /** Attempted and put off are the page; sent and failed are the attempted. */
  lemma EmailSweepConserves(b: Book, page: seq<Pending>, at: Instant, results: nat -> SendResult)
    ensures EmailBalanced(EmailSwept(b, page, at, results).tally, |page|)
  {
    EmailConserves(EmailProgress(b, NO_EMAIL), page, 0, at, results);
  }

  function Deferring(page: seq<Pending>, at: Instant, results: nat -> SendResult): nat -> bool {
    (k: nat) => k < |page| && PutOff(page[k], at, results(k))
  }

  function GivingUp(page: seq<Pending>, at: Instant, results: nat -> SendResult): nat -> bool {
    (k: nat) => k < |page| && IsRetryable(results(k)) && TooOldToDefer(page[k].created, at)
  }

  function Answering(results: nat -> SendResult, answer: SendResult): nat -> bool {
    (k: nat) => results(k) == answer
  }

  /** Each count is of the rows it names: taken, bounced for good, put off, and given up on. */
  lemma {:induction false} EmailTallyIsExact(p: EmailProgress, page: seq<Pending>, i: nat, at: Instant,
                                             results: nat -> SendResult)
    requires i <= |page|
    ensures var t := EmailFrom(p, page, i, at, results).tally;
      && t.sent == p.tally.sent + Number(Answering(results, Accepted), i, |page|)
      && t.suppressed == p.tally.suppressed + Number(Answering(results, HardBounce), i, |page|)
      && t.deferred == p.tally.deferred + Number(Deferring(page, at, results), i, |page|)
      && t.abandoned == p.tally.abandoned + Number(GivingUp(page, at, results), i, |page|)
    decreases |page| - i
  {
    if i < |page| {
      EmailTallyIsExact(EmailOne(p, page[i], at, results(i)), page, i + 1, at, results);
    }
  }

  function TicketIs(reply: Reply, ticket: Ticket): nat -> bool {
    (k: nat) => reply.Tickets? && k < |reply.tickets| && reply.tickets[k] == ticket
  }

  function TooOld(chunk: seq<Pending>, at: Instant): nat -> bool {
    (k: nat) => k < |chunk| && TooOldToDefer(chunk[k].created, at)
  }

  /**
  A fully answered batch counts its tickets; any other counts nothing as attempted, and gives up on
  the rows about to age out.
  */
  lemma {:induction false} ChunkTallyIsExact(p: PushProgress, chunk: seq<Pending>, i: nat, at: Instant, reply: Reply)
    requires i <= |chunk|
    ensures var t := ChunkFrom(p, chunk, i, at, reply).tally;
      if FullyAnswered(reply, chunk) then
        && t.delivered == p.tally.delivered + Number(TicketIs(reply, Taken), i, |chunk|)
        && t.tokensDisabled == p.tally.tokensDisabled + Number(TicketIs(reply, DeviceNotRegistered), i, |chunk|)
        && t.deferred == p.tally.deferred && t.abandoned == p.tally.abandoned
      else
        && t.abandoned == p.tally.abandoned + Number(TooOld(chunk, at), i, |chunk|)
        && t == p.tally.(deferred := t.deferred, abandoned := t.abandoned)
    decreases |chunk| - i
  {
    if i < |chunk| {
      ChunkTallyIsExact(PushOne(p, chunk, i, at, reply), chunk, i + 1, at, reply);
    }
  }

  predicate PushBalanced(t: PushTally, rows: nat) {
    t.attempted + t.deferred + t.abandoned == rows && t.delivered + t.failed == t.attempted && t.tokensDisabled <= t.failed
  }

  lemma {:induction false} ChunkConserves(p: PushProgress, chunk: seq<Pending>, i: nat, at: Instant, reply: Reply,
                                          before: nat)
    requires i <= |chunk| && PushBalanced(p.tally, before + i)
    ensures PushBalanced(ChunkFrom(p, chunk, i, at, reply).tally, before + |chunk|)
    decreases |chunk| - i
  {
    if i < |chunk| {
      ChunkConserves(PushOne(p, chunk, i, at, reply), chunk, i + 1, at, reply, before);
    }
  }

  lemma {:induction false} ChunksConserve(p: PushProgress, chunks: seq<seq<Pending>>, c: nat, at: Instant,
                                          replies: nat -> Reply, before: nat)
    requires c <= |chunks| && PushBalanced(p.tally, before)
    ensures PushBalanced(ChunksFrom(p, chunks, c, at, replies).tally, before + |Flat(chunks[c..])|)
    decreases |chunks| - c
  {
    if c < |chunks| {
      ChunkConserves(p, chunks[c], 0, at, replies(c), before);
      ChunksConserve(ChunkFrom(p, chunks[c], 0, at, replies(c)), chunks, c + 1, at, replies, before + |chunks[c]|);
      assert chunks[c..][1..] == chunks[c + 1..];
    }
  }

  /** Attempted, put off and written off are the page; delivered and failed are the attempted. */
  lemma PushSweepConserves(b: Book, page: seq<Pending>, at: Instant, replies: nat -> Reply)
    ensures PushBalanced(PushSwept(b, page, at, replies).tally, |page|)
  {
    var chunks := Slices(page, BATCH_SIZE);
    BatchesPartition(page, BATCH_SIZE);
    ChunksConserve(PushProgress(b, NO_PUSH), chunks, 0, at, replies, 0);
    assert chunks[0..] == chunks;
  }

  // ----- every row gets its own answer --------------------------------------

  /** No record is ever revised. */
  predicate LedgerGrows(b: Book, c: Book) {
    forall key | key in b.ledger :: key in c.ledger && c.ledger[key] == b.ledger[key]
  }

  /** The keys of one page, all distinct and none on record yet: what the query returns. */
  predicate Unanswered(b: Book, rows: seq<Pending>, channel: Channel) {
    && (forall k | 0 <= k < |rows| :: Key(rows[k].alert, channel, rows[k].target) !in b.ledger)
    && (forall k, l | 0 <= k < l < |rows| :: rows[k].alert != rows[l].alert || rows[k].target != rows[l].target)
  }

  /** What one pushed row's record should be, from its own ticket alone. */
  function PushVerdict(row: Pending, at: Instant, reply: Reply, chunk: seq<Pending>, i: nat): Option<Status>
    requires i < |chunk|
  {
    if FullyAnswered(reply, chunk) then Some(if reply.tickets[i] == Taken then Sent else Failed)
    else if TooOldToDefer(row.created, at) then Some(Failed)
    else None
  }

  function Found(b: Book, key: Key): Option<Status> {
    if key in b.ledger then Some(b.ledger[key]) else None
  }

  lemma OneRowPushed(p: PushProgress, chunk: seq<Pending>, i: nat, at: Instant, reply: Reply, tail: seq<Pending>)
    requires i < |chunk| && Unanswered(p.book, chunk[i..] + tail, Push)
    ensures var q := PushOne(p, chunk, i, at, reply);
      && Unanswered(q.book, chunk[i + 1..] + tail, Push)
      && LedgerGrows(p.book, q.book)
      && Found(q.book, PushKey(chunk[i])) == PushVerdict(chunk[i], at, reply, chunk, i)
      && q.book.ledger.Keys <= p.book.ledger.Keys + {PushKey(chunk[i])}
      && (!FullyAnswered(reply, chunk) ==> q.book.accepted == p.book.accepted && q.book.alerts == p.book.alerts)
  {
    var q := PushOne(p, chunk, i, at, reply);
    var was, rest := chunk[i..] + tail, chunk[i + 1..] + tail;
    assert was[0] == chunk[i];
    forall k | 0 <= k < |rest| ensures rest[k] == was[k + 1] {}
    forall k | 0 <= k < |rest| ensures Key(rest[k].alert, Push, rest[k].target) !in q.book.ledger {
      assert was[0].alert != was[k + 1].alert || was[0].target != was[k + 1].target;
    }
  }

  /**
  A row of a fully answered batch is recorded with its own ticket's verdict; a row of
  a short or refused one is recorded only if it is about to age out. Nothing in such
  a batch is ever marked delivered.
  */
  lemma {:induction false} OwnTicket(p: PushProgress, chunk: seq<Pending>, i: nat, at: Instant, reply: Reply,
                                     tail: seq<Pending>, k: nat)
    requires i <= |chunk| && Unanswered(p.book, chunk[i..] + tail, Push)
    ensures var q := ChunkFrom(p, chunk, i, at, reply);
      && Unanswered(q.book, tail, Push)
      && LedgerGrows(p.book, q.book)
      && (i <= k < |chunk| ==> Found(q.book, PushKey(chunk[k])) == PushVerdict(chunk[k], at, reply, chunk, k))
      && (!FullyAnswered(reply, chunk) ==> q.book.accepted == p.book.accepted && q.book.alerts == p.book.alerts)
    decreases |chunk| - i
  {
    if i == |chunk| {
      assert chunk[i..] + tail == tail;
    } else {
      var q := PushOne(p, chunk, i, at, reply);
      OneRowPushed(p, chunk, i, at, reply, tail);
      OwnTicket(q, chunk, i + 1, at, reply, tail, k);
      if k == i {
        var was := chunk[i..] + tail;
        assert forall l | i < l < |chunk| :: was[l - i] == chunk[l] && was[0] == chunk[i];
        NotAgain(q, chunk, i + 1, at, reply, tail, PushKey(chunk[i]));
      }
    }
  }

  /** A key that is none of the remaining rows' keeps what the ledger says of it. */
  lemma {:induction false} NotAgain(p: PushProgress, chunk: seq<Pending>, i: nat, at: Instant, reply: Reply,
                                    tail: seq<Pending>, key: Key)
    requires i <= |chunk| && Unanswered(p.book, chunk[i..] + tail, Push)
    requires key in p.book.ledger || forall k | i <= k < |chunk| :: PushKey(chunk[k]) != key
    ensures Found(ChunkFrom(p, chunk, i, at, reply).book, key) == Found(p.book, key)
    decreases |chunk| - i
  {
    if i < |chunk| {
      OneRowPushed(p, chunk, i, at, reply, tail);
      NotAgain(PushOne(p, chunk, i, at, reply), chunk, i + 1, at, reply, tail, key);
    }
  }

  /** A device is disabled exactly when a ticket of its own, in a fully answered batch, says it is gone. */
  lemma {:induction false} DeadDevicesAreDisabled(p: PushProgress, chunk: seq<Pending>, i: nat, at: Instant,
                                                  reply: Reply, target: Target)
    requires i <= |chunk|
    ensures target in ChunkFrom(p, chunk, i, at, reply).book.disabled <==>
      || target in p.book.disabled
      || (FullyAnswered(reply, chunk)
          && exists k :: i <= k < |chunk| && chunk[k].target == target && reply.tickets[k] == DeviceNotRegistered)
    decreases |chunk| - i
  {
    if i < |chunk| {
      DeadDevicesAreDisabled(PushOne(p, chunk, i, at, reply), chunk, i + 1, at, reply, target);
    }
  }

  predicate KeyAmong(rows: seq<Pending>, key: Key) {
    exists k | 0 <= k < |rows| :: PushKey(rows[k]) == key
  }

  lemma {:induction false} NotAgainLater(p: PushProgress, chunks: seq<seq<Pending>>, c: nat, at: Instant,
                                         replies: nat -> Reply, key: Key)
    requires c <= |chunks| && Unanswered(p.book, Flat(chunks[c..]), Push) && !KeyAmong(Flat(chunks[c..]), key)
    ensures Found(ChunksFrom(p, chunks, c, at, replies).book, key) == Found(p.book, key)
    decreases |chunks| - c
  {
    if c < |chunks| {
      var chunk, tail := chunks[c], Flat(chunks[c + 1..]);
      assert chunks[c..][1..] == chunks[c + 1..] && chunk[0..] + tail == Flat(chunks[c..]);
      AmongEither(chunk, tail, key);
      OwnTicket(p, chunk, 0, at, replies(c), tail, 0);
      NotAgain(p, chunk, 0, at, replies(c), tail, key);
      NotAgainLater(ChunkFrom(p, chunk, 0, at, replies(c)), chunks, c + 1, at, replies, key);
    }
  }

  lemma AmongEither(a: seq<Pending>, b: seq<Pending>, key: Key)
    ensures KeyAmong(a + b, key) <==> KeyAmong(a, key) || KeyAmong(b, key)
  {
    if KeyAmong(a, key) {
      var k :| 0 <= k < |a| && PushKey(a[k]) == key;
      assert PushKey((a + b)[k]) == key;
    }
    if KeyAmong(b, key) {
      var k :| 0 <= k < |b| && PushKey(b[k]) == key;
      assert PushKey((a + b)[|a| + k]) == key;
    }
  }

  lemma {:induction false} OwnTicketLater(p: PushProgress, chunks: seq<seq<Pending>>, c: nat, at: Instant,
                                          replies: nat -> Reply, d: nat, k: nat)
    requires c <= d < |chunks| && k < |chunks[d]| && Unanswered(p.book, Flat(chunks[c..]), Push)
    ensures Found(ChunksFrom(p, chunks, c, at, replies).book, PushKey(chunks[d][k])) == PushVerdict(chunks[d][k], at, replies(d), chunks[d], k)
    decreases |chunks| - c
  {
    var chunk, tail := chunks[c], Flat(chunks[c + 1..]);
    assert chunks[c..][1..] == chunks[c + 1..] && chunk[0..] + tail == Flat(chunks[c..]);
    OwnTicket(p, chunk, 0, at, replies(c), tail, k);
    if c == d {
      var all := chunk + tail;
      assert forall l | 0 <= l < |tail| :: all[|chunk| + l] == tail[l] && all[k] == chunk[k];
      NotAgainLater(ChunkFrom(p, chunk, 0, at, replies(c)), chunks, c + 1, at, replies, PushKey(chunk[k]));
    } else {
      OwnTicketLater(ChunkFrom(p, chunk, 0, at, replies(c)), chunks, c + 1, at, replies, d, k);
    }
  }

  /**
  Over a whole push sweep: each row's record is its own ticket's, however many batches there are
  and whichever of them fail.
  */
  lemma EveryRowGetsItsOwnTicket(b: Book, page: seq<Pending>, at: Instant, replies: nat -> Reply, d: nat, k: nat)
    requires Unanswered(b, page, Push) && d < |Slices(page, BATCH_SIZE)| && k < |Slices(page, BATCH_SIZE)[d]|
    ensures var chunks := Slices(page, BATCH_SIZE);
      Found(PushSwept(b, page, at, replies).book, PushKey(chunks[d][k])) == PushVerdict(chunks[d][k], at, replies(d), chunks[d], k)
  {
    var chunks := Slices(page, BATCH_SIZE);
    BatchesPartition(page, BATCH_SIZE);
    assert chunks[0..] == chunks;
    OwnTicketLater(PushProgress(b, NO_PUSH), chunks, 0, at, replies, d, k);
  }

  function EmailVerdict(row: Pending, at: Instant, result: SendResult): Option<Status> {
    if PutOff(row, at, result) then None else Some(if result == Accepted then Sent else Failed)
  }

  lemma OneRowEmailed(p: EmailProgress, page: seq<Pending>, i: nat, at: Instant, results: nat -> SendResult)
    requires i < |page| && Unanswered(p.book, page[i..], Email)
    ensures var q := EmailOne(p, page[i], at, results(i));
      && Unanswered(q.book, page[i + 1..], Email)
      && LedgerGrows(p.book, q.book)
      && Found(q.book, EmailKey(page[i])) == EmailVerdict(page[i], at, results(i))
      && q.book.ledger.Keys <= p.book.ledger.Keys + {EmailKey(page[i])}
  {
    var q := EmailOne(p, page[i], at, results(i));
    var was, rest := page[i..], page[i + 1..];
    assert was[0] == page[i];
    forall k | 0 <= k < |rest| ensures rest[k] == was[k + 1] {}
    forall k | 0 <= k < |rest| ensures Key(rest[k].alert, Email, rest[k].target) !in q.book.ledger {
      assert was[0].alert != was[k + 1].alert || was[0].target != was[k + 1].target;
    }
  }

  lemma {:induction false} NotEmailedAgain(p: EmailProgress, page: seq<Pending>, i: nat, at: Instant,
                                           results: nat -> SendResult, key: Key)
    requires i <= |page| && Unanswered(p.book, page[i..], Email)
    requires key in p.book.ledger || forall k | i <= k < |page| :: EmailKey(page[k]) != key
    ensures Found(EmailFrom(p, page, i, at, results).book, key) == Found(p.book, key)
    decreases |page| - i
  {
    if i < |page| {
      OneRowEmailed(p, page, i, at, results);
      NotEmailedAgain(EmailOne(p, page[i], at, results(i)), page, i + 1, at, results, key);
    }
  }

  /** Over a whole email sweep: each row's record is its own answer's, and a row put off has none. */
  lemma {:induction false} EveryRowGetsItsOwnAnswer(p: EmailProgress, page: seq<Pending>, i: nat, at: Instant,
                                                    results: nat -> SendResult, k: nat)
    requires i <= |page| && Unanswered(p.book, page[i..], Email)
    ensures LedgerGrows(p.book, EmailFrom(p, page, i, at, results).book)
    ensures i <= k < |page| ==>
      Found(EmailFrom(p, page, i, at, results).book, EmailKey(page[k])) == EmailVerdict(page[k], at, results(k))
    decreases |page| - i
  {
    if i < |page| {
      var q := EmailOne(p, page[i], at, results(i));
      OneRowEmailed(p, page, i, at, results);
      EveryRowGetsItsOwnAnswer(q, page, i + 1, at, results, k);
      if k == i {
        var was := page[i..];
        assert forall l | i < l < |page| :: was[l - i] == page[l] && was[0] == page[i];
        NotEmailedAgain(q, page, i + 1, at, results, EmailKey(page[i]));
      }
    }
  }

  // ----- suppressed addresses -----------------------------------------------

  /** Some row of the page before `k` has hard-bounced at this address. */
  predicate BouncedBefore(page: seq<Pending>, results: nat -> SendResult, i: nat, k: nat, address: Address)
    requires i <= k <= |page|
  {
    exists j | i <= j < k :: page[j].address == address && results(j).HardBounce?
  }

  /** The calls of one sweep: one a row, in order, each at an address suppressed already or bounced at since. */
  predicate CallsFit(b: Book, page: seq<Pending>, i: nat, results: nat -> SendResult, calls: seq<Call>)
    requires i <= |page|
  {
    && |calls| == |page| - i
    && forall k | i <= k < |page| ::
         calls[k - i] == Call(page[k].address, page[k].address in b.suppressed || BouncedBefore(page, results, i, k, page[k].address))
  }

  /** What an email sweep sends, and to whom, whatever the provider answers. */
  lemma {:induction false} EveryRowIsSentTo(p: EmailProgress, page: seq<Pending>, i: nat, at: Instant,
                                            results: nat -> SendResult)
      returns (calls: seq<Call>)
    requires i <= |page|
    ensures EmailFrom(p, page, i, at, results).book.called == p.book.called + calls
    ensures CallsFit(p.book, page, i, results, calls)
    decreases |page| - i
  {
    if i == |page| {
      calls := [];
    } else {
      var q := EmailOne(p, page[i], at, results(i));
      var first := Call(page[i].address, page[i].address in p.book.suppressed);
      var rest := EveryRowIsSentTo(q, page, i + 1, at, results);
      calls := [first] + rest;
      assert q.book.called == p.book.called + [first];
      forall k | i < k < |page|
        ensures calls[k - i] == Call(page[k].address, page[k].address in p.book.suppressed
                                                      || BouncedBefore(page, results, i, k, page[k].address))
      {
        assert calls[k - i] == rest[k - (i + 1)];
        BouncedFromHere(page, results, i, k, page[k].address);
      }
    }
  }

  lemma BouncedFromHere(page: seq<Pending>, results: nat -> SendResult, i: nat, k: nat, address: Address)
    requires i < k <= |page|
    ensures BouncedBefore(page, results, i, k, address) <==>
      (page[i].address == address && results(i).HardBounce?) || BouncedBefore(page, results, i + 1, k, address)
  {
  }

  /** The messages one sweep of this page hands to the provider. */
  function CallsOf(b: Book, page: seq<Pending>, at: Instant, results: nat -> SendResult): seq<Call> {
    EmailSwept(b.(called := []), page, at, results).book.called
  }

  /**
  "A suppressed address is never written to again" holds from one sweep to the next,
  but not inside one: the page is read before its bounces are. Row `i` of the page is
  written to at a suppressed address exactly when an earlier row of the same page
  hard-bounced at that address.
  */
  lemma SuppressedIsWrittenToIff(b: Book, page: seq<Pending>, at: Instant, results: nat -> SendResult, i: nat)
    requires i < |page| && page[i].address !in b.suppressed
    ensures var calls := CallsOf(b, page, at, results);
      |calls| == |page| && calls[i].address == page[i].address
      && (calls[i].suppressed <==> exists j :: 0 <= j < i && page[j].address == page[i].address && results(j).HardBounce?)
  {
    var calls := EveryRowIsSentTo(EmailProgress(b.(called := []), NO_EMAIL), page, 0, at, results);
    assert [] + calls == calls == CallsOf(b, page, at, results);
    if j :| 0 <= j < i && page[j].address == page[i].address && results(j).HardBounce? {
      assert BouncedBefore(page, results, 0, i, page[i].address);
    }
  }

  ghost predicate SuppressionAlwaysHeeded(b: Book, page: seq<Pending>, at: Instant) {
    forall results: nat -> SendResult :: Heeded(CallsOf(b, page, at, results))
  }

  predicate Heeded(calls: seq<Call>) {
    forall k | 0 <= k < |calls| :: !calls[k].suppressed
  }

  predicate AddressesDistinct(page: seq<Pending>) {
    forall i, j | 0 <= i < j < |page| :: page[i].address != page[j].address
  }

  function AllBounce(call: nat): SendResult {
    HardBounce
  }

  /**
  What a caller can check of a page before sending any of it: whatever the provider
  answers, no suppressed address is written to, exactly when no two rows share one.
  */
  lemma SuppressionHeededIff(b: Book, page: seq<Pending>, at: Instant)
    requires forall k | 0 <= k < |page| :: page[k].address !in b.suppressed
    ensures SuppressionAlwaysHeeded(b, page, at) <==> AddressesDistinct(page)
  {
    if AddressesDistinct(page) {
      forall results: nat -> SendResult ensures Heeded(CallsOf(b, page, at, results)) {
        forall k | 0 <= k < |CallsOf(b, page, at, results)| ensures !CallsOf(b, page, at, results)[k].suppressed {
          OneCallARow(b, page, at, results);
          SuppressedIsWrittenToIff(b, page, at, results, k);
        }
      }
    } else {
      var i, j :| 0 <= i < j < |page| && page[i].address == page[j].address;
      SuppressedIsWrittenToIff(b, page, at, AllBounce, j);
      assert AllBounce(i).HardBounce?;
      assert !Heeded(CallsOf(b, page, at, AllBounce));
    }
  }

  lemma OneCallARow(b: Book, page: seq<Pending>, at: Instant, results: nat -> SendResult)
    ensures |CallsOf(b, page, at, results)| == |page|
  {
    var calls := EveryRowIsSentTo(EmailProgress(b.(called := []), NO_EMAIL), page, 0, at, results);
    assert [] + calls == calls;
  }

  /** Two notices to one person, both pending: the first bounces for good, and the second is sent there all the same. */
  lemma SecondNoticeIsSentAnyway() returns (b: Book, page: seq<Pending>)
    ensures Unanswered(b, page, Email) && forall k | 0 <= k < |page| :: page[k].address !in b.suppressed
    ensures var calls := CallsOf(b, page, 0, AllBounce); |page| == |calls| == 2 && calls[1] == Call(page[1].address, true)
  {
    b := Book(map[], map[], {}, {}, [], [], []);
    page := [Pending(0, 0, 7, 70), Pending(1, 0, 7, 70)];
    OneCallARow(b, page, 0, AllBounce);
    SuppressedIsWrittenToIff(b, page, 0, AllBounce, 1);
    assert page[0].address == page[1].address && AllBounce(0).HardBounce?;
  }
}
