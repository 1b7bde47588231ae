/**
A sweep that takes the oldest few rows lacking what it produces, where a row may
leave only by acquiring it. The failure counts live in the process; the record of
giving up outlives it and sorts given-up rows last.
*/
module StuckWindow {
  type RowId = nat

  const ATTEMPTS: nat := 3

  /** The in-memory counts, one object per sweep. */
  class Window {
    const attempts: nat
    var failures: map<RowId, nat>

    constructor (attempts: nat)
      ensures this.attempts == attempts && failures == map[]
    {
      this.attempts := attempts;
      failures := map[];
    }

    predicate Stuck(id: RowId)
      reads this
    {
      Count(failures, id) >= attempts
    }

    method Failed(id: RowId) returns (count: nat)
      modifies this
      ensures count == Count(old(failures), id) + 1
      ensures failures == old(failures)[id := count]
    {
      count := Count(failures, id) + 1;
      failures := failures[id := count];
    }

    method Succeeded(id: RowId)
      modifies this
      ensures failures == old(failures) - {id}
    {
      failures := failures - {id};
    }
  }

  function Count(failures: map<RowId, nat>, id: RowId): nat {
    if id in failures then failures[id] else 0
  }

  // ----- the sweep on values ------------------------------------------------

  /** What one attempt came to: the row's product, nothing and no error, or an error. */
  datatype Outcome = Produced | Nothing | Threw

  /** What the world does to one sweep: each row's outcome, and whether each audit write works. */
  datatype Weather = Weather(outcome: RowId -> Outcome, auditWorks: RowId -> bool)

  /** `pending` is oldest first; `givenUp` and `recovered` are the audit log's two actions. */
  datatype Book = Book(pending: seq<RowId>, failures: map<RowId, nat>, givenUp: set<RowId>, recovered: set<RowId>)

  predicate SortsLast(b: Book, id: RowId) {
    id in b.givenUp && id !in b.recovered
  }

  function Select(s: seq<RowId>, keep: RowId -> bool): (r: seq<RowId>)
    ensures forall id :: id in r <==> id in s && keep(id)
  {
    if s == [] then []
    else if keep(s[0]) then [s[0]] + Select(s[1..], keep)
    else Select(s[1..], keep)
  }

  /** The query's order: rows not given up on first, oldest first within each part. */
  function InOrder(b: Book): seq<RowId> {
    Select(b.pending, (id: RowId) => !SortsLast(b, id)) + Select(b.pending, (id: RowId) => SortsLast(b, id))
  }

  function Page(b: Book, limit: nat): seq<RowId> {
    var rows := InOrder(b);
    if |rows| <= limit then rows else rows[..limit]
  }

  predicate Stuck(b: Book, id: RowId) {
    Count(b.failures, id) >= ATTEMPTS
  }

  function Attempt(b: Book, id: RowId, weather: Weather): Book {
    if Stuck(b, id) then b
    else match weather.outcome(id)
      case Produced =>
        b.(pending := Select(b.pending, (other: RowId) => other != id),
           failures := b.failures - {id},
           recovered := if id in b.givenUp && weather.auditWorks(id) then b.recovered + {id} else b.recovered)
      case Nothing => b
      case Threw =>
        var count := Count(b.failures, id) + 1;
        b.(failures := b.failures[id := count],
           givenUp := if count >= ATTEMPTS && weather.auditWorks(id) then b.givenUp + {id} else b.givenUp)
  }

  function Attempts(b: Book, rows: seq<RowId>, weather: Weather): Book
    decreases rows
  {
    if rows == [] then b else Attempts(Attempt(b, rows[0], weather), rows[1..], weather)
  }

  function Sweep(b: Book, limit: nat, weather: Weather): Book {
    Attempts(b, Page(b, limit), weather)
  }

  /** Rows of the page the sweep produced for. */
  function Production(b: Book, rows: seq<RowId>, weather: Weather): nat
    decreases rows
  {
    if rows == [] then 0
    else
      (if !Stuck(b, rows[0]) && weather.outcome(rows[0]).Produced? then 1 else 0)
      + Production(Attempt(b, rows[0], weather), rows[1..], weather)
  }

  // ----- the sweep as the worker runs it ------------------------------------

  class Sweeper {
    const window: Window
    var pending: seq<RowId>
    var givenUp: set<RowId>
    var recovered: set<RowId>

    constructor (pending: seq<RowId>, givenUp: set<RowId>, recovered: set<RowId>)
      ensures fresh(window) && window.attempts == ATTEMPTS
      ensures Value() == Book(pending, map[], givenUp, recovered)
    {
      window := new Window(ATTEMPTS);
      this.pending, this.givenUp, this.recovered := pending, givenUp, recovered;
    }

    ghost function Value(): Book
      reads this, window
    {
      Book(pending, window.failures, givenUp, recovered)
    }

    /** One pass: the page is read once, and then each of its rows is tried unless it is stuck. */
    method Run(limit: nat, weather: Weather) returns (produced: nat)
      requires window.attempts == ATTEMPTS
      modifies this, window
      ensures Value() == Sweep(old(Value()), limit, weather)
      ensures produced == Production(old(Value()), Page(old(Value()), limit), weather)
    {
      var rows := Page(Book(pending, window.failures, givenUp, recovered), limit);
      produced := 0;
      var i := 0;
      while i < |rows|
        invariant i <= |rows|
        invariant Attempts(Value(), rows[i..], weather) == Sweep(old(Value()), limit, weather)
        invariant produced + Production(Value(), rows[i..], weather) == Production(old(Value()), rows, weather)
      {
        var id := rows[i];
        assert rows[i..][0] == id && rows[i..][1..] == rows[i + 1..];
        if !window.Stuck(id) {
          match weather.outcome(id) {
            case Produced =>
              window.Succeeded(id);
              pending := Select(pending, (other: RowId) => other != id);
              if id in givenUp && weather.auditWorks(id) {
                recovered := recovered + {id};
              }
              produced := produced + 1;
            case Nothing =>
            case Threw =>
              var count := window.Failed(id);
              if count >= window.attempts && weather.auditWorks(id) {
                givenUp := givenUp + {id};
              }
          }
        }
        i := i + 1;
      }
    }
  }
}
