/**
The last day before the window shuts. A row between six and seven days old is
recorded whatever the provider answers, provided the sweeps of that day have room
for everything as old as it; and with one row more they need not.
*/
module WriteOff {
  import opened Options
  import opened Delivery
  import opened DeliveryTheorems

  /** One email sweep: all that was pending when it read its page, the page, and what the provider answered. */
  datatype Round = Round(pending: set<Pending>, page: seq<Pending>, at: Instant, results: nat -> SendResult)

  /** Oldest first, up to the limit. */
  predicate IsPage(page: seq<Pending>, pending: set<Pending>, limit: nat) {
    && |page| <= limit
    && (forall k | 0 <= k < |page| :: page[k] in pending)
    && (forall k, l | 0 <= k < l < |page| :: page[k] != page[l])
    && (|page| < limit ==> forall row | row in pending :: row in page)
    && (forall k, row | 0 <= k < |page| && row in pending && row !in page :: page[k].created <= row.created)
  }

  /** Pending rows have no record, one row a recipient, and the row we follow stays pending until it has one. */
  predicate IsPending(b: Book, pending: set<Pending>, row: Pending) {
    && (forall r | r in pending :: EmailKey(r) !in b.ledger)
    && (forall r, q | r in pending && q in pending && r.alert == q.alert && r.target == q.target :: r == q)
    && (EmailKey(row) !in b.ledger ==> row in pending)
  }

  /** A sweep of the row's last day. Whatever else happens before the next, no record is revised. */
  predicate RoundFrom(before: Book, after: Book, round: Round, limit: nat, row: Pending) {
    && TooOldToDefer(row.created, round.at)
    && IsPending(before, round.pending, row)
    && IsPage(round.page, round.pending, limit)
    && LedgerGrows(EmailSwept(before, round.page, round.at, round.results).book, after)
  }

  predicate RoundTaken(books: seq<Book>, rounds: seq<Round>, j: nat, limit: nat, row: Pending)
    requires j < |rounds| && |books| == |rounds| + 1
  {
    RoundFrom(books[j], books[j + 1], rounds[j], limit, row)
  }

  predicate LastDay(books: seq<Book>, rounds: seq<Round>, limit: nat, row: Pending) {
    |books| == |rounds| + 1 && forall j | 0 <= j < |rounds| :: RoundTaken(books, rounds, j, limit, row)
  }

  /** Every row as old or older that is pending at one of the first `n` sweeps. */
  function Elders(rounds: seq<Round>, n: nat, row: Pending): set<Pending>
    requires n <= |rounds|
  {
    if n == 0 then {}
    else Elders(rounds, n - 1, row) + set r | r in rounds[n - 1].pending && r.created <= row.created
  }

  function Times(n: nat, k: nat): nat {
    if k == 0 then 0 else Times(n, k - 1) + n
  }

  function SetOf(page: seq<Pending>): set<Pending> {
    set r | r in page
  }

  lemma {:induction false} DistinctRowsCount(page: seq<Pending>)
    requires forall k, l | 0 <= k < l < |page| :: page[k] != page[l]
    ensures |SetOf(page)| == |page|
  {
    if page != [] {
      var rest := page[1..];
      DistinctRowsCount(rest);
      assert forall k | 0 <= k < |rest| :: rest[k] == page[k + 1];
      assert page[0] !in rest;
      assert SetOf(page) == SetOf(rest) + {page[0]};
    }
  }

  /** A sweep that leaves the row unrecorded has spent its whole page on rows as old or older, and recorded them all. */
  lemma RoundSpent(books: seq<Book>, rounds: seq<Round>, j: nat, limit: nat, row: Pending)
    requires j < |rounds| && LastDay(books, rounds, limit, row)
    requires EmailKey(row) !in books[j + 1].ledger
    ensures EmailKey(row) !in books[j].ledger && row in rounds[j].pending && row !in rounds[j].page
    ensures |rounds[j].page| == limit
    ensures forall r | r in rounds[j].page :: r in rounds[j].pending && r.created <= row.created
    ensures forall r | r in rounds[j].page :: EmailKey(r) !in books[j].ledger && EmailKey(r) in books[j + 1].ledger
  {
    assert RoundTaken(books, rounds, j, limit, row);
    var round := rounds[j];
    var p := EmailProgress(books[j], NO_EMAIL);
    var after := EmailSwept(books[j], round.page, round.at, round.results).book;
    assert round.page[0..] == round.page;
    assert Unanswered(books[j], round.page, Email);
    EveryRowGetsItsOwnAnswer(p, round.page, 0, round.at, round.results, 0);
    assert LedgerGrows(books[j], after);
    if row in round.page {
      var k :| 0 <= k < |round.page| && round.page[k] == row;
      EveryRowGetsItsOwnAnswer(p, round.page, 0, round.at, round.results, k);
    }
    forall r | r in round.page
      ensures r in round.pending && r.created <= row.created && EmailKey(r) !in books[j].ledger && EmailKey(r) in books[j + 1].ledger
    {
      var k :| 0 <= k < |round.page| && round.page[k] == r;
      EveryRowGetsItsOwnAnswer(p, round.page, 0, round.at, round.results, k);
    }
  }

  /** While the row waits, each sweep has recorded `limit` of its elders, and none of them twice. */
  lemma {:induction false} Spent(books: seq<Book>, rounds: seq<Round>, n: nat, limit: nat,
                                 row: Pending) returns (recorded: set<Pending>)
    requires n <= |rounds| && LastDay(books, rounds, limit, row) && EmailKey(row) !in books[n].ledger
    ensures |recorded| == Times(limit, n) && recorded <= Elders(rounds, n, row) && row !in recorded
    ensures forall r | r in recorded :: EmailKey(r) in books[n].ledger
    ensures n > 0 ==> row in Elders(rounds, n, row)
    decreases n
  {
    if n == 0 {
      recorded := {};
    } else {
      RoundSpent(books, rounds, n - 1, limit, row);
      var before := Spent(books, rounds, n - 1, limit, row);
      var page := rounds[n - 1].page;
      StillRecorded(books, rounds, n - 1, limit, row);
      DistinctPage(books, rounds, n - 1, limit, row);
      recorded := before + SetOf(page);
      assert before !! SetOf(page);
    }
  }

  lemma StillRecorded(books: seq<Book>, rounds: seq<Round>, j: nat, limit: nat, row: Pending)
    requires j < |rounds| && LastDay(books, rounds, limit, row)
    ensures LedgerGrows(books[j], books[j + 1])
  {
    assert RoundTaken(books, rounds, j, limit, row);
    var round := rounds[j];
    assert round.page[0..] == round.page;
    EveryRowGetsItsOwnAnswer(EmailProgress(books[j], NO_EMAIL), round.page, 0, round.at, round.results, 0);
  }

  lemma DistinctPage(books: seq<Book>, rounds: seq<Round>, j: nat, limit: nat, row: Pending)
    requires j < |rounds| && LastDay(books, rounds, limit, row)
    ensures |SetOf(rounds[j].page)| == |rounds[j].page|
  {
    assert RoundTaken(books, rounds, j, limit, row);
    DistinctRowsCount(rounds[j].page);
  }

  /**
  If no more rows as old or older than this one are ever pending on its last day than
  that day's sweeps have places, it has a delivery record before the window drops it,
  whatever the provider answers.
  */
  lemma RecordedBeforeItIsDropped(books: seq<Book>, rounds: seq<Round>, limit: nat, row: Pending)
    requires LastDay(books, rounds, limit, row) && |rounds| > 0
    requires |Elders(rounds, |rounds|, row)| <= Times(limit, |rounds|)
    ensures EmailKey(row) in books[|rounds|].ledger
  {
    if EmailKey(row) !in books[|rounds|].ledger {
      var recorded := Spent(books, rounds, |rounds|, limit, row);
      assert recorded + {row} <= Elders(rounds, |rounds|, row);
      SubsetCount(recorded + {row}, Elders(rounds, |rounds|, row));
    }
  }

  lemma {:induction false} SubsetCount<T>(a: set<T>, b: set<T>)
    requires a <= b
    ensures |a| <= |b|
  {
    assert b == a + (b - a);
    assert |b| == |a| + |b - a|;
  }

  // ----- the bound is the right one -----------------------------------------

  function Nth(i: nat): Pending {
    Pending(i, 0, 0, 0)
  }

  /** The ledger once the first `n` of a queue of equally old rows have been written off. */
  function WrittenOff(n: nat): map<Key, Status>
  {
    map i | 0 <= i < n :: EmailKey(Nth(i)) := Failed
  }

  lemma WrittenOffGrows(n: nat)
    ensures WrittenOff(n + 1) == WrittenOff(n)[EmailKey(Nth(n)) := Failed]
    ensures forall i: nat :: EmailKey(Nth(i)) in WrittenOff(n) <==> i < n
  {
    assert forall i: nat | i < n :: EmailKey(Nth(i)) in WrittenOff(n);
  }

  function Tables(n: nat): Book {
    Book(map[], WrittenOff(n), {}, {}, [], [], [])
  }

  function Down(call: nat): SendResult {
    ProviderError
  }

  /** A provider that is down, and a sweep on the row's last day. */
  function OutageRound(first: nat, limit: nat, last: nat): Round {
    Round(set i | first <= i <= last :: Nth(i), seq(limit, k requires 0 <= k < limit => Nth(first + k)), GIVE_UP_AFTER, Down)
  }

  lemma OutageWritesOne(p: EmailProgress, n: nat)
    requires p.book.ledger == WrittenOff(n)
    ensures EmailOne(p, Nth(n), GIVE_UP_AFTER, ProviderError).book.ledger == WrittenOff(n + 1)
  {
    WrittenOffGrows(n);
  }

  lemma {:induction false} OutageWritesOff(p: EmailProgress, page: seq<Pending>, i: nat, first: nat)
    requires i <= |page| && p.book.ledger == WrittenOff(first + i)
    requires forall k | 0 <= k < |page| :: page[k] == Nth(first + k)
    ensures EmailFrom(p, page, i, GIVE_UP_AFTER, Down).book.ledger == WrittenOff(first + |page|)
    decreases |page| - i
  {
    if i < |page| {
      var q := EmailOne(p, page[i], GIVE_UP_AFTER, Down(i));
      OutageWritesOne(p, first + i);
      OutageWritesOff(q, page, i + 1, first);
    }
  }

  lemma {:induction false} TimesGrows(limit: nat, j: nat, k: nat)
    requires j <= k
    ensures Times(limit, j) <= Times(limit, k)
    decreases k
  {
    if j < k {
      TimesGrows(limit, j, k - 1);
    }
  }

  lemma OutageIsPending(first: nat, limit: nat, last: nat)
    requires first <= last
    ensures IsPending(Tables(first), OutageRound(first, limit, last).pending, Nth(last))
  {
    WrittenOffGrows(first);
  }

  lemma OutageIsPage(first: nat, limit: nat, last: nat)
    requires first + limit <= last
    ensures IsPage(OutageRound(first, limit, last).page, OutageRound(first, limit, last).pending, limit)
  {
    var round := OutageRound(first, limit, last);
    forall k | 0 <= k < |round.page| ensures round.page[k] in round.pending {
      assert round.page[k] == Nth(first + k);
    }
  }

  lemma OutageSweep(first: nat, limit: nat, last: nat)
    ensures EmailSwept(Tables(first), OutageRound(first, limit, last).page, GIVE_UP_AFTER, Down).book.ledger
         == Tables(first + limit).ledger
  {
    OutageWritesOff(EmailProgress(Tables(first), NO_EMAIL), OutageRound(first, limit, last).page, 0, first);
  }

  lemma OutageRoundTaken(first: nat, limit: nat, last: nat)
    requires first + limit <= last
    ensures RoundFrom(Tables(first), Tables(first + limit), OutageRound(first, limit, last), limit, Nth(last))
  {
    OutageIsPending(first, limit, last);
    OutageIsPage(first, limit, last);
    OutageSweep(first, limit, last);
  }

  function Queue(last: nat): set<Pending> {
    set i | 0 <= i <= last :: Nth(i)
  }

  lemma {:induction false} QueueCount(last: nat)
    ensures |Queue(last)| == last + 1
  {
    if last == 0 {
      assert Queue(0) == {Nth(0)};
    } else {
      QueueCount(last - 1);
      assert Queue(last) == Queue(last - 1) + {Nth(last)};
    }
  }

  lemma {:induction false} EldersAreTheQueue(rounds: seq<Round>, n: nat, limit: nat, last: nat)
    requires 0 < n <= |rounds| && forall j | 0 <= j < |rounds| :: rounds[j] == OutageRound(Times(limit, j), limit, last)
    ensures Elders(rounds, n, Nth(last)) == Queue(last)
  {
    var pending := rounds[n - 1].pending;
    assert pending <= Queue(last);
    assert (set r | r in pending && r.created <= Nth(last).created) == pending;
    if n == 1 {
      assert rounds[0].pending == Queue(last);
    } else {
      EldersAreTheQueue(rounds, n - 1, limit, last);
    }
  }

  function OutageBooks(limit: nat, k: nat): (r: seq<Book>)
    ensures |r| == k + 1 && forall j | 0 <= j <= k :: r[j] == Tables(Times(limit, j))
  {
    seq(k + 1, j requires 0 <= j <= k => Tables(Times(limit, j)))
  }

  function OutageRounds(limit: nat, k: nat, last: nat): (r: seq<Round>)
    ensures |r| == k && forall j | 0 <= j < k :: r[j] == OutageRound(Times(limit, j), limit, last)
  {
    seq(k, j requires 0 <= j < k => OutageRound(Times(limit, j), limit, last))
  }

  lemma LastIsUnwritten(last: nat)
    ensures EmailKey(Nth(last)) !in Tables(last).ledger
  {
    WrittenOffGrows(last);
  }

  /** An outage that lasts all day: sweep after sweep, each takes the next `limit` of the queue. */
  ghost predicate OutageDay(books: seq<Book>, rounds: seq<Round>, limit: nat, last: nat, j: nat)
    requires j < |rounds| && |books| == |rounds| + 1
  {
    && books[j] == Tables(Times(limit, j)) && books[j + 1] == Tables(Times(limit, j) + limit)
    && rounds[j] == OutageRound(Times(limit, j), limit, last)
  }

  lemma OutageIsALastDay(books: seq<Book>, rounds: seq<Round>, limit: nat, last: nat)
    requires |books| == |rounds| + 1 && Times(limit, |rounds|) <= last
    requires forall j | 0 <= j < |rounds| :: OutageDay(books, rounds, limit, last, j)
    ensures LastDay(books, rounds, limit, Nth(last))
  {
    forall j | 0 <= j < |rounds| ensures RoundTaken(books, rounds, j, limit, Nth(last)) {
      assert OutageDay(books, rounds, limit, last, j);
      TimesGrows(limit, j + 1, |rounds|);
      OutageRoundTaken(Times(limit, j), limit, last);
    }
  }

  lemma OutageDays(limit: nat, k: nat, j: nat)
    requires j < k
    ensures OutageDay(OutageBooks(limit, k), OutageRounds(limit, k, Times(limit, k)), limit, Times(limit, k), j)
  {
    assert Times(limit, j + 1) == Times(limit, j) + limit;
  }

  /** The bound is exact: with one elder more, a provider that stays down leaves the row with no record at all. */
  lemma OneTooManyIsDropped(limit: nat, k: nat) returns (books: seq<Book>, rounds: seq<Round>, row: Pending)
    requires k > 0
    ensures |rounds| == k && LastDay(books, rounds, limit, row)
    ensures |Elders(rounds, k, row)| == Times(limit, k) + 1
    ensures EmailKey(row) !in books[k].ledger
  {
    var last := Times(limit, k);
    books, rounds, row := OutageBooks(limit, k), OutageRounds(limit, k, last), Nth(last);
    forall j | 0 <= j < k ensures OutageDay(books, rounds, limit, last, j) {
      OutageDays(limit, k, j);
    }
    OutageIsALastDay(books, rounds, limit, last);
    EldersAreTheQueue(rounds, k, limit, last);
    QueueCount(last);
    LastIsUnwritten(last);
  }
}
