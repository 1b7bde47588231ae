/**
Delivering alerts outside the console. Three sweeps over one set of tables: email,
push, and the one that writes down which notices nobody received. Times are whole
milliseconds on one clock.
*/
module Delivery {
  import opened Options

  type AlertId = nat
  type Target = nat
  type Address = nat
  type Instant = int

  const DAY: int := 86_400_000
  const GIVE_UP_AFTER: int := 6 * DAY
  const WINDOW: int := 7 * DAY
  const BATCH_SIZE: nat := 100

  datatype Channel = Email | Push
  datatype Status = Sent | Failed
  datatype Key = Key(alert: AlertId, channel: Channel, target: Target)
  datatype Alert = Alert(created: Instant, delivered: Option<Instant>, via: Option<Channel>)

  /** One row of a pending query: an alert, and one recipient entitled to it. */
  datatype Pending = Pending(alert: AlertId, created: Instant, target: Target, address: Address)

  /** One message handed to the email provider, and whether its address was suppressed when it was. */
  datatype Call = Call(address: Address, suppressed: bool)

  /**
  `ledger` is append-only and unique on its key. The last two are history, for the
  proofs alone: every time a provider took a message, and every email it was handed.
  */
  datatype Book = Book(
    alerts: map<AlertId, Alert>,
    ledger: map<Key, Status>,
    suppressed: set<Address>,
    disabled: set<Target>,
    notGiven: seq<AlertId>,
    accepted: seq<Key>,
    called: seq<Call>)

  // ----- what one statement does --------------------------------------------

  /** `on conflict do nothing`: the first record of a key stands. */
  function Recorded(ledger: map<Key, Status>, key: Key, status: Status): map<Key, Status> {
    if key in ledger then ledger else ledger[key := status]
  }

  /** Email fills in what is missing; push takes the credit for the channel either way. */
  function Stamped(alert: Alert, channel: Channel, at: Instant): Alert {
    Alert(alert.created,
          if alert.delivered.Some? then alert.delivered else Some(at),
          if channel == Email && alert.via.Some? then alert.via else Some(channel))
  }

  function Stamp(alerts: map<AlertId, Alert>, id: AlertId, channel: Channel, at: Instant): map<AlertId, Alert> {
    if id in alerts then alerts[id := Stamped(alerts[id], channel, at)] else alerts
  }

  /** A message the provider took: recorded as sent, and stamped on its alert. */
  function TookIt(b: Book, key: Key, at: Instant): Book {
    b.(ledger := Recorded(b.ledger, key, Sent), alerts := Stamp(b.alerts, key.alert, key.channel, at),
       accepted := b.accepted + [key])
  }

  function WriteOff(b: Book, key: Key): Book {
    b.(ledger := Recorded(b.ledger, key, Failed))
  }

  predicate TooOldToDefer(created: Instant, at: Instant) {
    at - created >= GIVE_UP_AFTER
  }

  // ----- email --------------------------------------------------------------

  datatype SendResult = Accepted | HardBounce | SoftBounce | Refused | ProviderError

  predicate IsRetryable(result: SendResult) {
    result.SoftBounce? || result.ProviderError?
  }

  predicate Suppresses(result: SendResult) {
    result.HardBounce?
  }

  datatype EmailTally = EmailTally(attempted: nat, sent: nat, failed: nat, suppressed: nat, deferred: nat, abandoned: nat)

  datatype EmailProgress = EmailProgress(book: Book, tally: EmailTally)

  function EmailKey(row: Pending): Key {
    Key(row.alert, Email, row.target)
  }

  /** What an answer leaves behind: nothing if it is put off, and otherwise a record. */
  predicate PutOff(row: Pending, at: Instant, result: SendResult) {
    IsRetryable(result) && !TooOldToDefer(row.created, at)
  }

  /** Every row of the page is sent to: nothing is asked again between the query and the send. */
  function Handed(b: Book, row: Pending): Book {
    b.(called := b.called + [Call(row.address, row.address in b.suppressed)])
  }

  function EmailOne(p: EmailProgress, row: Pending, at: Instant, result: SendResult): EmailProgress {
    EmailAnswered(p.(book := Handed(p.book, row)), row, at, result)
  }

  function EmailAnswered(p: EmailProgress, row: Pending, at: Instant, result: SendResult): EmailProgress {
    var t := p.tally;
    if PutOff(row, at, result) then p.(tally := t.(deferred := t.deferred + 1))
    else if result == Accepted then
      EmailProgress(TookIt(p.book, EmailKey(row), at), t.(attempted := t.attempted + 1, sent := t.sent + 1))
    else
      var written := WriteOff(p.book, EmailKey(row));
      var counted := t.(attempted := t.attempted + 1, failed := t.failed + 1);
      if Suppresses(result) then
        EmailProgress(written.(suppressed := written.suppressed + {row.address}), counted.(suppressed := t.suppressed + 1))
      else
        EmailProgress(written, if IsRetryable(result) then counted.(abandoned := t.abandoned + 1) else counted)
  }

  function EmailFrom(p: EmailProgress, page: seq<Pending>, i: nat, at: Instant,
                     results: nat -> SendResult): EmailProgress
    requires i <= |page|
    decreases |page| - i
  {
    if i == |page| then p else EmailFrom(EmailOne(p, page[i], at, results(i)), page, i + 1, at, results)
  }

  const NO_EMAIL := EmailTally(0, 0, 0, 0, 0, 0)

  function EmailSwept(b: Book, page: seq<Pending>, at: Instant, results: nat -> SendResult): EmailProgress {
    EmailFrom(EmailProgress(b, NO_EMAIL), page, 0, at, results)
  }

  // ----- push ---------------------------------------------------------------

  datatype Ticket = Taken | DeviceNotRegistered | OtherError

  /** The sender threw, or answered with some tickets. */
  datatype Reply = SenderThrew | Tickets(tickets: seq<Ticket>)

  datatype PushTally = PushTally(attempted: nat, delivered: nat, failed: nat, tokensDisabled: nat, deferred: nat, abandoned: nat)

  datatype PushProgress = PushProgress(book: Book, tally: PushTally)

  function PushKey(row: Pending): Key {
    Key(row.alert, Push, row.target)
  }

  /** Fewer tickets than messages is a batch nobody took. */
  predicate FullyAnswered(reply: Reply, chunk: seq<Pending>) {
    reply.Tickets? && |reply.tickets| >= |chunk|
  }

  function NotSentOne(p: PushProgress, row: Pending, at: Instant): PushProgress {
    if !TooOldToDefer(row.created, at) then p.(tally := p.tally.(deferred := p.tally.deferred + 1))
    else PushProgress(WriteOff(p.book, PushKey(row)), p.tally.(abandoned := p.tally.abandoned + 1))
  }

  function TicketOne(p: PushProgress, row: Pending, at: Instant, ticket: Ticket): PushProgress {
    var t := p.tally;
    match ticket
    case Taken =>
      PushProgress(TookIt(p.book, PushKey(row), at), t.(attempted := t.attempted + 1, delivered := t.delivered + 1))
    case DeviceNotRegistered =>
      var written := WriteOff(p.book, PushKey(row));
      PushProgress(written.(disabled := written.disabled + {row.target}),
                   t.(attempted := t.attempted + 1, failed := t.failed + 1, tokensDisabled := t.tokensDisabled + 1))
    case OtherError =>
      PushProgress(WriteOff(p.book, PushKey(row)), t.(attempted := t.attempted + 1, failed := t.failed + 1))
  }

  function PushOne(p: PushProgress, chunk: seq<Pending>, i: nat, at: Instant, reply: Reply): PushProgress
    requires i < |chunk|
  {
    if FullyAnswered(reply, chunk) then TicketOne(p, chunk[i], at, reply.tickets[i]) else NotSentOne(p, chunk[i], at)
  }

  function ChunkFrom(p: PushProgress, chunk: seq<Pending>, i: nat, at: Instant, reply: Reply): PushProgress
    requires i <= |chunk|
    decreases |chunk| - i
  {
    if i == |chunk| then p else ChunkFrom(PushOne(p, chunk, i, at, reply), chunk, i + 1, at, reply)
  }

  function ChunksFrom(p: PushProgress, chunks: seq<seq<Pending>>, i: nat, at: Instant,
                      replies: nat -> Reply): PushProgress
    requires i <= |chunks|
    decreases |chunks| - i
  {
    if i == |chunks| then p
    else ChunksFrom(ChunkFrom(p, chunks[i], 0, at, replies(i)), chunks, i + 1, at, replies)
  }

  const NO_PUSH := PushTally(0, 0, 0, 0, 0, 0)

  function Slices<T>(items: seq<T>, size: nat): seq<seq<T>>
    requires size > 0
  {
    if items == [] then []
    else if |items| <= size then [items]
    else [items[..size]] + Slices(items[size..], size)
  }

  function PushSwept(b: Book, page: seq<Pending>, at: Instant, replies: nat -> Reply): PushProgress {
    ChunksFrom(PushProgress(b, NO_PUSH), Slices(page, BATCH_SIZE), 0, at, replies)
  }

  /** Index by index, a slice at a time. */
  method Batch<T>(items: seq<T>, size: nat) returns (batches: seq<seq<T>>)
    requires size > 0
    ensures batches == Slices(items, size)
  {
    batches := [];
    var index := 0;
    while index < |items|
      invariant 0 <= index
      invariant batches + (if index < |items| then Slices(items[index..], size) else []) == Slices(items, size)
      decreases |items| - index
    {
      var slice := if index + size <= |items| then items[index..index + size] else items[index..];
      ghost var rest := items[index..];
      if |rest| <= size {
        assert slice == rest;
      } else {
        assert slice == rest[..size] && rest[size..] == items[index + size..];
      }
      batches := batches + [slice];
      index := index + size;
    }
  }

  // ----- notices nobody received --------------------------------------------

  datatype NoticeProgress = NoticeProgress(book: Book, recorded: nat)

  function NoticeFrom(p: NoticeProgress, page: seq<AlertId>, i: nat, writes: nat -> bool): NoticeProgress
    requires i <= |page|
    decreases |page| - i
  {
    if i == |page| then p
    else
      NoticeFrom(if writes(i) then NoticeProgress(p.book.(notGiven := p.book.notGiven + [page[i]]), p.recorded + 1) else p,
                 page, i + 1, writes)
  }

  // ----- the tables, and the sweeps over them -------------------------------

  class DeliveryTables {
    var alerts: map<AlertId, Alert>
    var ledger: map<Key, Status>
    var suppressed: set<Address>
    var disabled: set<Target>
    var notGiven: seq<AlertId>
    ghost var accepted: seq<Key>
    ghost var called: seq<Call>

    ghost function Value(): Book
      reads this
    {
      Book(alerts, ledger, suppressed, disabled, notGiven, accepted, called)
    }

    method Record(key: Key, status: Status)
      modifies this`ledger
      ensures ledger == Recorded(old(ledger), key, status)
    {
      if key !in ledger {
        ledger := ledger[key := status];
      }
    }

    method MarkDelivered(id: AlertId, channel: Channel, at: Instant)
      modifies this`alerts
      ensures alerts == Stamp(old(alerts), id, channel, at)
    {
      if id in alerts {
        alerts := alerts[id := Stamped(alerts[id], channel, at)];
      }
    }

    method SweepAlertEmail(page: seq<Pending>, at: Instant, results: nat -> SendResult) returns (tally: EmailTally)
      modifies this
      ensures EmailProgress(Value(), tally) == EmailSwept(old(Value()), page, at, results)
    {
      tally := NO_EMAIL;
      for i := 0 to |page|
        invariant EmailFrom(EmailProgress(Value(), tally), page, i, at, results) == EmailSwept(old(Value()), page, at, results)
      {
        tally := EmailRow(page[i], at, results(i), tally);
      }
    }

    method EmailRow(row: Pending, at: Instant, outcome: SendResult, before: EmailTally) returns (tally: EmailTally)
      modifies this
      ensures EmailProgress(Value(), tally) == EmailOne(EmailProgress(old(Value()), before), row, at, outcome)
    {
      tally := before;
      called := called + [Call(row.address, row.address in suppressed)];
      if IsRetryable(outcome) {
        if at - row.created < GIVE_UP_AFTER {
          return tally.(deferred := tally.deferred + 1);
        }
        tally := tally.(abandoned := tally.abandoned + 1);
      }
      tally := tally.(attempted := tally.attempted + 1);
      if outcome == Accepted {
        accepted := accepted + [EmailKey(row)];
        tally := tally.(sent := tally.sent + 1);
      } else {
        tally := tally.(failed := tally.failed + 1);
      }
      Record(EmailKey(row), if outcome == Accepted then Sent else Failed);
      if Suppresses(outcome) {
        suppressed := suppressed + {row.address};
        tally := tally.(suppressed := tally.suppressed + 1);
      }
      if outcome == Accepted {
        MarkDelivered(row.alert, Email, at);
      }
    }

    method SweepAlertPush(page: seq<Pending>, at: Instant, replies: nat -> Reply) returns (tally: PushTally)
      modifies this
      ensures PushProgress(Value(), tally) == PushSwept(old(Value()), page, at, replies)
    {
      tally := NO_PUSH;
      var chunks := Batch(page, BATCH_SIZE);
      for c := 0 to |chunks|
        invariant ChunksFrom(PushProgress(Value(), tally), chunks, c, at, replies) == PushSwept(old(Value()), page, at, replies)
      {
        var chunk, reply := chunks[c], replies(c);
        if reply.SenderThrew? || |reply.tickets| < |chunk| {
          tally := NotSent(chunk, at, reply, tally);
        } else {
          tally := ReadTickets(chunk, at, reply, tally);
        }
      }
    }

    method NotSent(chunk: seq<Pending>, at: Instant, reply: Reply, before: PushTally) returns (tally: PushTally)
      requires !FullyAnswered(reply, chunk)
      modifies this
      ensures PushProgress(Value(), tally) == ChunkFrom(PushProgress(old(Value()), before), chunk, 0, at, reply)
    {
      tally := before;
      for i := 0 to |chunk|
        invariant ChunkFrom(PushProgress(Value(), tally), chunk, i, at, reply)
               == ChunkFrom(PushProgress(old(Value()), before), chunk, 0, at, reply)
      {
        var row := chunk[i];
        if at - row.created < GIVE_UP_AFTER {
          tally := tally.(deferred := tally.deferred + 1);
        } else {
          tally := tally.(abandoned := tally.abandoned + 1);
          Record(PushKey(row), Failed);
        }
      }
    }

    method ReadTickets(chunk: seq<Pending>, at: Instant, reply: Reply, before: PushTally) returns (tally: PushTally)
      requires FullyAnswered(reply, chunk)
      modifies this
      ensures PushProgress(Value(), tally) == ChunkFrom(PushProgress(old(Value()), before), chunk, 0, at, reply)
    {
      tally := before;
      for i := 0 to |chunk|
        invariant ChunkFrom(PushProgress(Value(), tally), chunk, i, at, reply)
               == ChunkFrom(PushProgress(old(Value()), before), chunk, 0, at, reply)
      {
        tally := PushRow(chunk[i], at, reply.tickets[i], tally);
      }
    }

    method PushRow(row: Pending, at: Instant, ticket: Ticket, before: PushTally) returns (tally: PushTally)
      modifies this
      ensures PushProgress(Value(), tally) == TicketOne(PushProgress(old(Value()), before), row, at, ticket)
    {
      tally := before.(attempted := before.attempted + 1);
      if ticket == Taken {
        accepted := accepted + [PushKey(row)];
        tally := tally.(delivered := tally.delivered + 1);
      } else {
        tally := tally.(failed := tally.failed + 1);
      }
      Record(PushKey(row), if ticket == Taken then Sent else Failed);
      if ticket == DeviceNotRegistered {
        disabled := disabled + {row.target};
        tally := tally.(tokensDisabled := tally.tokensDisabled + 1);
      }
      if ticket == Taken {
        MarkDelivered(row.alert, Push, at);
      }
    }

    method SweepUndeliveredNotices(page: seq<AlertId>, writes: nat -> bool) returns (recorded: nat)
      modifies this`notGiven
      ensures NoticeProgress(Value(), recorded) == NoticeFrom(NoticeProgress(old(Value()), 0), page, 0, writes)
    {
      recorded := 0;
      for i := 0 to |page|
        invariant NoticeFrom(NoticeProgress(Value(), recorded), page, i, writes)
               == NoticeFrom(NoticeProgress(old(Value()), 0), page, 0, writes)
      {
        if writes(i) {
          notGiven := notGiven + [page[i]];
          recorded := recorded + 1;
        }
      }
    }
  }
}
