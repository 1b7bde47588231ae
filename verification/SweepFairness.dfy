/**
How long a row can wait in a bounded sweep window, however many of the rows ahead
of it can never succeed, and exactly when it waits for ever.
*/
module SweepFairness {
  import opened StuckWindow

  predicate Distinct(s: seq<RowId>) {
    forall i, j | 0 <= i < j < |s| :: s[i] != s[j]
  }

  function Position(s: seq<RowId>, id: RowId): (k: nat)
    requires id in s
    ensures k < |s| && s[k] == id && id !in s[..k]
  {
    if s[0] == id then 0 else 1 + Position(s[1..], id)
  }

  /** The query puts this row before the target. */
  predicate IsAhead(b: Book, target: RowId, id: RowId)
    requires target in b.pending
  {
    id in b.pending[..Position(b.pending, target)] && !SortsLast(b, id)
  }

  // ----- selection and order ------------------------------------------------

  lemma {:induction false} SelectConcat(s: seq<RowId>, t: seq<RowId>, keep: RowId -> bool)
    ensures Select(s + t, keep) == Select(s, keep) + Select(t, keep)
  {
    if s == [] {
      assert s + t == t;
    } else {
      assert (s + t)[0] == s[0] && (s + t)[1..] == s[1..] + t;
      SelectConcat(s[1..], t, keep);
    }
  }

  lemma {:induction false} SelectDistinct(s: seq<RowId>, keep: RowId -> bool)
    requires Distinct(s)
    ensures Distinct(Select(s, keep))
  {
    if s != [] {
      assert forall id | id in s[1..] :: id != s[0];
      SelectDistinct(s[1..], keep);
    }
  }

  /** Selecting keeps order: what precedes a kept row afterwards preceded it before. */
  lemma PrefixOfSelection(s: seq<RowId>, keep: RowId -> bool, id: RowId)
    requires id in s && keep(id)
    ensures id in Select(s, keep)
    ensures Select(s, keep)[..Position(Select(s, keep), id)] == Select(s[..Position(s, id)], keep)
  {
    var k := Position(s, id);
    var r := Select(s, keep);
    var front := Select(s[..k], keep);
    assert s == s[..k] + s[k..] && s[k..][0] == id;
    SelectConcat(s[..k], s[k..], keep);
    assert r == front + Select(s[k..], keep);
    assert Select(s[k..], keep)[0] == id;
    assert id !in front;
    assert r[|front|] == id;
    assert forall i | 0 <= i < |front| :: r[i] in front;
    assert Position(r, id) == |front|;
  }

  lemma EarlyRowIsOnPage(b: Book, limit: nat, k: nat)
    requires k < |InOrder(b)| && k < limit
    ensures InOrder(b)[k] in Page(b, limit)
  {
    assert Page(b, limit)[k] == InOrder(b)[k];
  }

  /** A page that misses the row is full, and is made of rows ahead of it. */
  lemma MissedPage(b: Book, target: RowId, limit: nat)
    requires Distinct(b.pending) && target in b.pending && !SortsLast(b, target)
    requires target !in Page(b, limit)
    ensures |Page(b, limit)| == limit && Distinct(Page(b, limit))
    ensures forall id | id in Page(b, limit) :: IsAhead(b, target, id)
  {
    var keep := (id: RowId) => !SortsLast(b, id);
    var first := Select(b.pending, keep);
    PrefixOfSelection(b.pending, keep, target);
    SelectDistinct(b.pending, keep);
    var k := Position(first, target);
    assert InOrder(b)[k] == first[k] == target;
    if k < limit {
      EarlyRowIsOnPage(b, limit, k);
    }
    assert Page(b, limit) == first[..k][..limit];
  }

  // ----- what one sweep does to one row -------------------------------------

  /** All that the book says about one row. */
  datatype View = View(waiting: bool, failures: nat, givenUp: bool, recovered: bool)

  function Look(b: Book, id: RowId): View {
    View(id in b.pending, Count(b.failures, id), id in b.givenUp, id in b.recovered)
  }

  lemma {:induction false} RowsAreIndependent(b: Book, rows: seq<RowId>, weather: Weather, id: RowId)
    requires Distinct(rows)
    ensures Look(Attempts(b, rows, weather), id) == Look(if id in rows then Attempt(b, id, weather) else b, id)
    decreases rows
  {
    if rows != [] {
      var next := Attempt(b, rows[0], weather);
      assert forall x | x in rows[1..] :: x != rows[0];
      RowsAreIndependent(next, rows[1..], weather, id);
      if id == rows[0] {
        assert id !in rows[1..];
      } else {
        AttemptElsewhere(b, rows[0], weather, id);
        assert id in rows <==> id in rows[1..];
        OwnViewOnly(b, next, weather, id);
      }
    }
  }

  lemma AttemptElsewhere(b: Book, tried: RowId, weather: Weather, id: RowId)
    requires id != tried
    ensures Look(Attempt(b, tried, weather), id) == Look(b, id)
  {
  }

  /** What an attempt does to its row depends on that row's view alone. */
  lemma OwnViewOnly(b: Book, c: Book, weather: Weather, id: RowId)
    requires Look(b, id) == Look(c, id)
    ensures Look(Attempt(b, id, weather), id) == Look(Attempt(c, id, weather), id)
  {
  }

  /** Attempts only ever remove rows from the list, and keep the rest in order. */
  lemma {:induction false} OrderKept(b: Book, rows: seq<RowId>, weather: Weather, target: RowId, id: RowId)
    requires Distinct(b.pending)
    ensures var after := Attempts(b, rows, weather);
            && Distinct(after.pending)
            && (target in after.pending ==>
                  && target in b.pending
                  && (id in after.pending[..Position(after.pending, target)] ==>
                        id in b.pending[..Position(b.pending, target)]))
    decreases rows
  {
    if rows != [] {
      var next := Attempt(b, rows[0], weather);
      var keep := (other: RowId) => other != rows[0];
      SelectDistinct(b.pending, keep);
      if target in b.pending && target in next.pending && next.pending != b.pending {
        PrefixOfSelection(b.pending, keep, target);
      }
      OrderKept(next, rows[1..], weather, target, id);
    }
  }

  /** A third failure leaves a row stuck, and sorted last unless that goes unrecorded or it was recovered before. */
  lemma GivingUpSortsLastIff(b: Book, id: RowId, weather: Weather)
    requires Count(b.failures, id) == ATTEMPTS - 1 && weather.outcome(id).Threw?
    ensures var c := Attempt(b, id, weather);
      Stuck(c, id) && (SortsLast(c, id) <==> id !in b.recovered && (id in b.givenUp || weather.auditWorks(id)))
  {
  }

  /**
  A row that produces leaves the list with its count forgotten, and is still sorted last exactly
  when its recovery went unrecorded.
  */
  lemma ProducingForgives(b: Book, id: RowId, weather: Weather)
    requires !Stuck(b, id) && weather.outcome(id).Produced?
    ensures var c := Attempt(b, id, weather);
      && id !in c.pending && Count(c.failures, id) == 0
      && (SortsLast(c, id) <==> SortsLast(b, id) && !weather.auditWorks(id))
  {
  }

  // ----- a process life as a chain of sweeps --------------------------------

  datatype Round = Round(start: Book, weather: Weather)

  function Finish(round: Round, limit: nat): Book {
    Sweep(round.start, limit, round.weather)
  }

  /**
  Between two sweeps of one process the counts and the audit log stand. Rows may leave
  the list, and rows may arrive, but not ahead of the one watched.
  */
  ghost predicate NextRound(end: Book, next: Book, target: RowId) {
    && next.(pending := end.pending) == end
    && Distinct(next.pending)
    && (target in end.pending ==>
          target in next.pending && forall id | IsAhead(next, target, id) :: IsAhead(end, target, id))
  }

  ghost predicate Life(rounds: seq<Round>, limit: nat, target: RowId) {
    && (forall r | r in rounds :: Distinct(r.start.pending))
    && forall i | 0 <= i < |rounds| - 1 :: Chained(rounds, limit, target, i)
  }

  ghost predicate Chained(rounds: seq<Round>, limit: nat, target: RowId, i: nat)
    requires i < |rounds| - 1
  {
    NextRound(Finish(rounds[i], limit), rounds[i + 1].start, target)
  }

  /**
  Nothing ahead of the target can hold its place for ever, except the spoilers. A roster
  row has not been recovered before, so giving up on it sorts it last; a spoiler may have
  been, and then giving up on it again leaves no record.
  */
  ghost predicate Fair(b: Book, target: RowId, spoilers: set<RowId>, roster: seq<RowId>) {
    && Distinct(b.pending) && target in b.pending
    && !Stuck(b, target) && !SortsLast(b, target)
    && (forall id | IsAhead(b, target, id) :: id in roster || id in spoilers)
    && forall id | id in roster && IsAhead(b, target, id) :: Countable(b, id)
  }

  predicate Countable(b: Book, id: RowId) {
    id !in b.recovered && (Stuck(b, id) ==> id in b.givenUp)
  }

  /** Every try at a roster row produces or is counted and recorded; the target succeeds whenever it is tried. */
  predicate FairWeather(weather: Weather, target: RowId, roster: seq<RowId>) {
    && weather.outcome(target).Produced?
    && forall id | id in roster :: !weather.outcome(id).Nothing? && weather.auditWorks(id)
  }

  // ----- the attempts left ahead --------------------------------------------

  /** Tries left in one row, for as long as it is ahead of the one watched. */
  function TriesLeft(b: Book, target: RowId, id: RowId): nat
    requires target in b.pending
  {
    if IsAhead(b, target, id) && !Stuck(b, id) then ATTEMPTS - Count(b.failures, id) else 0
  }

  function Total(b: Book, target: RowId, roster: seq<RowId>): nat
    requires target in b.pending
  {
    if roster == [] then 0 else TriesLeft(b, target, roster[0]) + Total(b, target, roster[1..])
  }

  lemma {:induction false} TotalAtMost(b: Book, target: RowId, roster: seq<RowId>)
    requires target in b.pending
    ensures Total(b, target, roster) <= ATTEMPTS * |roster|
  {
    if roster != [] {
      TotalAtMost(b, target, roster[1..]);
    }
  }

  /** If every row's tries stand or fall, and fall by one wherever it was tried, the total falls by the rows tried. */
  lemma {:induction false} TotalDrops(b: Book, c: Book, target: RowId, roster: seq<RowId>, tried: set<RowId>)
    requires target in b.pending && target in c.pending && Distinct(roster)
    requires forall id | id in roster ::
      TriesLeft(c, target, id) + (if id in tried then 1 else 0) <= TriesLeft(b, target, id)
    requires forall id | id in tried :: id in roster
    ensures Total(c, target, roster) + |tried| <= Total(b, target, roster)
  {
    if roster == [] {
      assert tried == {};
    } else {
      var rest := tried - {roster[0]};
      assert forall id | id in roster[1..] :: id != roster[0];
      assert |tried| == |rest| + if roster[0] in tried then 1 else 0 by {
        if roster[0] in tried {
          assert tried == rest + {roster[0]};
        } else {
          assert tried == rest;
        }
      }
      TotalDrops(b, c, target, roster[1..], rest);
    }
  }

  function Members(s: seq<RowId>): set<RowId> {
    set id | id in s
  }

  lemma {:induction false} DistinctSize(s: seq<RowId>)
    requires Distinct(s)
    ensures |Members(s)| == |s|
  {
    if s != [] {
      assert forall id | id in s[1..] :: id != s[0];
      DistinctSize(s[1..]);
      assert Members(s) == {s[0]} + Members(s[1..]);
    }
  }

  /** A sweep that misses the target leaves it as it was, and everything it tried was ahead of it. */
  lemma MissedRound(r: Round, target: RowId, limit: nat, id: RowId)
    requires Distinct(r.start.pending) && target in r.start.pending && !SortsLast(r.start, target)
    requires target !in Page(r.start, limit)
    ensures Distinct(Finish(r, limit).pending) && Look(Finish(r, limit), target) == Look(r.start, target)
    ensures Look(Finish(r, limit), id)
         == Look(if id in Page(r.start, limit) then Attempt(r.start, id, r.weather) else r.start, id)
    ensures target in Finish(r, limit).pending
    ensures id in Finish(r, limit).pending[..Position(Finish(r, limit).pending, target)] ==>
            id in r.start.pending[..Position(r.start.pending, target)]
    ensures id in Page(r.start, limit) ==> IsAhead(r.start, target, id)
  {
    MissedPage(r.start, target, limit);
    RowsAreIndependent(r.start, Page(r.start, limit), r.weather, target);
    RowsAreIndependent(r.start, Page(r.start, limit), r.weather, id);
    OrderKept(r.start, Page(r.start, limit), r.weather, target, id);
    assert Look(Finish(r, limit), target).waiting;
  }

  /** One row ahead, over one sweep that missed the target and whatever came before the next. */
  lemma OneRowOneRound(r: Round, next: Book, target: RowId, limit: nat, id: RowId)
    requires Distinct(r.start.pending) && target in r.start.pending && !SortsLast(r.start, target)
    requires NextRound(Finish(r, limit), next, target) && target !in Page(r.start, limit)
    ensures target in next.pending && Look(next, target) == Look(r.start, target)
    ensures IsAhead(next, target, id) ==> IsAhead(r.start, target, id)
    ensures !r.weather.outcome(id).Nothing? && r.weather.auditWorks(id)
            && (IsAhead(r.start, target, id) ==> Countable(r.start, id)) ==>
      && (IsAhead(next, target, id) ==> Countable(next, id))
      && TriesLeft(next, target, id) + (if id in Page(r.start, limit) then 1 else 0) <= TriesLeft(r.start, target, id)
  {
    var end := Finish(r, limit);
    MissedRound(r, target, limit, id);
    assert Look(next, id).(waiting := true) == Look(end, id).(waiting := true);
    assert Look(next, target).(waiting := true) == Look(end, target).(waiting := true);
    if IsAhead(next, target, id) {
      assert IsAhead(end, target, id);
      assert id in end.pending && Look(end, id).waiting;
      assert id in r.start.pending;
      assert SortsLast(end, id) <==> Look(end, id).givenUp && !Look(end, id).recovered;
      assert IsAhead(r.start, target, id);
    }
  }

  /** The page that missed the target uses up a try in each of its rows that is not a spoiler. */
  lemma OneRound(r: Round, next: Book, target: RowId, limit: nat, spoilers: set<RowId>, roster: seq<RowId>)
    requires Fair(r.start, target, spoilers, roster) && FairWeather(r.weather, target, roster)
    requires NextRound(Finish(r, limit), next, target) && target !in Page(r.start, limit)
    requires Distinct(roster) && |spoilers| < limit
    requires forall id | id in roster :: id !in spoilers
    ensures Fair(next, target, spoilers, roster)
    ensures Total(next, target, roster) + (limit - |spoilers|) <= Total(r.start, target, roster)
  {
    var page := Page(r.start, limit);
    var tried := Members(page) - spoilers;
    MissedPage(r.start, target, limit);
    OneRowOneRound(r, next, target, limit, target);
    forall id
      ensures IsAhead(next, target, id) ==> IsAhead(r.start, target, id)
      ensures id in roster ==>
        && (IsAhead(next, target, id) ==> Countable(next, id))
        && TriesLeft(next, target, id) + (if id in tried then 1 else 0) <= TriesLeft(r.start, target, id)
    {
      OneRowOneRound(r, next, target, limit, id);
    }
    TotalDrops(r.start, next, target, roster, tried);
    DistinctSize(page);
    SizeOfUnion(Members(page), tried, spoilers);
  }

  lemma SizeOfUnion(a: set<RowId>, b: set<RowId>, c: set<RowId>)
    requires a <= b + c
    ensures |a| <= |b| + |c|
  {
    var both := b + c;
    assert |both| == |b| + |c - b| by { assert both == b + (c - b); }
    assert |c - b| <= |c| by { assert c == (c - b) + (c * b); }
    assert |a| <= |both| by { assert both == a + (both - a); }
  }

  // ----- no starvation ------------------------------------------------------

  function Times(k: nat, each: nat): (r: nat)
    ensures r == k * each
  {
    if k == 0 then 0 else Times(k - 1, each) + each
  }

  /** After k sweeps that all missed the target, the roster has lost a page's worth of tries in each. */
  lemma {:induction false} MissedSoFar(rounds: seq<Round>, limit: nat, target: RowId, spoilers: set<RowId>,
                                       roster: seq<RowId>, k: nat)
    requires Life(rounds, limit, target) && |spoilers| < limit && k < |rounds|
    requires Fair(rounds[0].start, target, spoilers, roster) && Distinct(roster)
    requires forall id | id in roster :: id !in spoilers
    requires forall i | 0 <= i < k ::
      FairWeather(rounds[i].weather, target, roster) && target !in Page(rounds[i].start, limit)
    ensures Fair(rounds[k].start, target, spoilers, roster)
    ensures Total(rounds[k].start, target, roster) + Times(k, limit - |spoilers|) <= ATTEMPTS * |roster|
  {
    if k == 0 {
      TotalAtMost(rounds[0].start, target, roster);
    } else {
      MissedSoFar(rounds, limit, target, spoilers, roster, k - 1);
      assert Chained(rounds, limit, target, k - 1);
      OneRound(rounds[k - 1], rounds[k].start, target, limit, spoilers, roster);
    }
  }

  lemma TriedMeansDone(r: Round, limit: nat, target: RowId)
    requires Distinct(r.start.pending) && target in Page(r.start, limit)
    requires r.weather.outcome(target).Produced? && !Stuck(r.start, target)
    ensures target !in Finish(r, limit).pending
  {
    PageIsDistinct(r.start, limit);
    RowsAreIndependent(r.start, Page(r.start, limit), r.weather, target);
    assert !Look(Finish(r, limit), target).waiting;
  }

  lemma PageIsDistinct(b: Book, limit: nat)
    requires Distinct(b.pending)
    ensures Distinct(Page(b, limit))
  {
    var first, last := (id: RowId) => !SortsLast(b, id), (id: RowId) => SortsLast(b, id);
    SelectDistinct(b.pending, first);
    SelectDistinct(b.pending, last);
    var a, z := Select(b.pending, first), Select(b.pending, last);
    assert InOrder(b) == a + z;
    forall i, j | 0 <= i < |a| && 0 <= j < |z| ensures a[i] != z[j] {
      assert a[i] in a && first(a[i]);
      assert z[j] in z && last(z[j]);
    }
  }

  /** Sweeps that all miss the target are no more than the roster has pages' worth of tries. */
  lemma MissesRunOut(rounds: seq<Round>, limit: nat, target: RowId, spoilers: set<RowId>, roster: seq<RowId>)
    requires Life(rounds, limit, target) && |spoilers| < limit && |rounds| > 0
    requires Fair(rounds[0].start, target, spoilers, roster) && Distinct(roster)
    requires forall id | id in roster :: id !in spoilers
    requires forall i | 0 <= i < |rounds| ::
      FairWeather(rounds[i].weather, target, roster) && target !in Page(rounds[i].start, limit)
    ensures Times(|rounds|, limit - |spoilers|) <= ATTEMPTS * |roster|
  {
    var n := |rounds| - 1;
    var last := rounds[n];
    MissedSoFar(rounds, limit, target, spoilers, roster, n);
    MissedRound(last, target, limit, target);
    OneRound(last, Finish(last, limit), target, limit, spoilers, roster);
  }

  lemma SomePageHasIt(rounds: seq<Round>, limit: nat, target: RowId, spoilers: set<RowId>, roster: seq<RowId>)
    requires Life(rounds, limit, target) && |spoilers| < limit
    requires |rounds| == ATTEMPTS * |roster| / (limit - |spoilers|) + 1
    requires Fair(rounds[0].start, target, spoilers, roster) && Distinct(roster)
    requires forall id | id in roster :: id !in spoilers
    requires forall i | 0 <= i < |rounds| :: FairWeather(rounds[i].weather, target, roster)
    ensures exists i :: 0 <= i < |rounds| && target in Page(rounds[i].start, limit)
  {
    if forall i | 0 <= i < |rounds| :: target !in Page(rounds[i].start, limit) {
      MissesRunOut(rounds, limit, target, spoilers, roster);
      DivideBelow(ATTEMPTS * |roster|, limit - |spoilers|);
    }
  }

  /**
  No starvation. Behind p rows that can never succeed, and s more that can hold a place
  for ever, a row that would succeed is produced within floor(3p / (limit - s)) + 1 sweeps
  of one process, for any limit above s. With no spoilers that is floor(3p / limit) + 1.
  */
  lemma ProducedInTime(rounds: seq<Round>, limit: nat, target: RowId, spoilers: set<RowId>, roster: seq<RowId>)
    requires Life(rounds, limit, target) && |spoilers| < limit
    requires |rounds| == ATTEMPTS * |roster| / (limit - |spoilers|) + 1
    requires Fair(rounds[0].start, target, spoilers, roster) && Distinct(roster)
    requires forall id | id in roster :: id !in spoilers
    requires forall r | r in rounds :: FairWeather(r.weather, target, roster)
    ensures exists i :: 0 <= i < |rounds| && target in rounds[i].start.pending
                        && target !in Finish(rounds[i], limit).pending
  {
    SomePageHasIt(rounds, limit, target, spoilers, roster);
    var i :| 0 <= i < |rounds| && target in Page(rounds[i].start, limit);
    var first := FirstTried(rounds, limit, target, i);
    MissedSoFar(rounds, limit, target, spoilers, roster, first);
    TriedMeansDone(rounds[first], limit, target);
  }

  lemma DivideBelow(n: nat, d: nat)
    requires d > 0
    ensures (n / d) * d + d > n
  {
  }

  lemma {:induction false} FirstTried(rounds: seq<Round>, limit: nat, target: RowId, i: nat) returns (first: nat)
    requires i < |rounds| && target in Page(rounds[i].start, limit)
    ensures first <= i && target in Page(rounds[first].start, limit)
    ensures forall k | 0 <= k < first :: target !in Page(rounds[k].start, limit)
  {
    if k :| 0 <= k < i && target in Page(rounds[k].start, limit) {
      first := FirstTried(rounds, limit, target, k);
    } else {
      first := i;
    }
  }

  // ----- three tries each ---------------------------------------------------

  predicate TriedAndThrew(r: Round, limit: nat, id: RowId) {
    id in Page(r.start, limit) && !Stuck(r.start, id) && r.weather.outcome(id).Threw?
  }

  ghost function Throws(rounds: seq<Round>, limit: nat, id: RowId): nat {
    if rounds == [] then 0
    else (if TriedAndThrew(rounds[0], limit, id) then 1 else 0) + Throws(rounds[1..], limit, id)
  }

  predicate CountsStand(rounds: seq<Round>, limit: nat, i: nat)
    requires i < |rounds| - 1
  {
    rounds[i + 1].start.failures == Finish(rounds[i], limit).failures
  }

  /** Within one process life a row that never succeeds is tried, and throws, at most three times. */
  lemma {:induction false} ThreeTries(rounds: seq<Round>, limit: nat, id: RowId)
    requires |rounds| > 0 && forall r | r in rounds :: Distinct(r.start.pending) && !r.weather.outcome(id).Produced?
    requires forall i | 0 <= i < |rounds| - 1 :: CountsStand(rounds, limit, i)
    ensures Stuck(rounds[0].start, id) ==> Throws(rounds, limit, id) == 0
    ensures !Stuck(rounds[0].start, id) ==>
      Throws(rounds, limit, id) + Count(rounds[0].start.failures, id) <= ATTEMPTS
  {
    PageIsDistinct(rounds[0].start, limit);
    RowsAreIndependent(rounds[0].start, Page(rounds[0].start, limit), rounds[0].weather, id);
    assert Look(Finish(rounds[0], limit), id).failures == Count(Finish(rounds[0], limit).failures, id);
    if |rounds| > 1 {
      assert CountsStand(rounds, limit, 0);
      forall i | 0 <= i < |rounds[1..]| - 1 ensures CountsStand(rounds[1..], limit, i) {
        assert CountsStand(rounds, limit, i + 1);
      }
      ThreeTries(rounds[1..], limit, id);
    } else {
      assert Throws(rounds[1..], limit, id) == 0;
    }
  }

  // ----- when the window is jammed for ever ---------------------------------

  function Sweeps(b: Book, limit: nat, weathers: seq<Weather>): Book
    decreases |weathers|
  {
    if weathers == [] then b else Sweeps(Sweep(b, limit, weathers[0]), limit, weathers[1..])
  }

  ghost predicate Frozen(b: Book, limit: nat) {
    forall weathers: seq<Weather> :: Sweeps(b, limit, weathers) == b
  }

  /** The sweep can never change anything again, whatever the weather, exactly when its page is all stuck rows. */
  lemma FrozenIffPageStuck(b: Book, limit: nat)
    requires Distinct(b.pending)
    ensures Frozen(b, limit) <==> forall id | id in Page(b, limit) :: Stuck(b, id)
  {
    var page := Page(b, limit);
    if forall id | id in page :: Stuck(b, id) {
      forall weathers: seq<Weather> ensures Sweeps(b, limit, weathers) == b {
        FrozenSweeps(b, limit, weathers);
      }
    } else {
      var id :| id in page && !Stuck(b, id);
      var storm := Weather((x: RowId) => Threw, (x: RowId) => true);
      PageIsDistinct(b, limit);
      RowsAreIndependent(b, page, storm, id);
      assert Sweeps(b, limit, [storm]) == Sweeps(Sweep(b, limit, storm), limit, []);
      assert Look(Sweep(b, limit, storm), id) != Look(b, id);
      assert Sweeps(b, limit, [storm]) != b;
    }
  }

  lemma {:induction false} FrozenSweeps(b: Book, limit: nat, weathers: seq<Weather>)
    requires forall id | id in Page(b, limit) :: Stuck(b, id)
    ensures Sweeps(b, limit, weathers) == b
    decreases |weathers|
  {
    if weathers != [] {
      FrozenAttempts(b, Page(b, limit), weathers[0]);
      FrozenSweeps(b, limit, weathers[1..]);
    }
  }

  lemma {:induction false} FrozenAttempts(b: Book, rows: seq<RowId>, weather: Weather)
    requires forall id | id in rows :: Stuck(b, id)
    ensures Attempts(b, rows, weather) == b
    decreases rows
  {
    if rows != [] {
      FrozenAttempts(b, rows[1..], weather);
    }
  }

  // ----- and however many rows arrive ---------------------------------------

  /** Rows that turn up before a sweep, newest and so last, and how the sweep then goes. */
  datatype Turn = Turn(arrivals: seq<RowId>, weather: Weather)

  function Joined(b: Book, arrivals: seq<RowId>): Book {
    b.(pending := b.pending + arrivals)
  }

  function Turns(b: Book, limit: nat, turns: seq<Turn>): Book
    decreases |turns|
  {
    if turns == [] then b else Turns(Sweep(Joined(b, turns[0].arrivals), limit, turns[0].weather), limit, turns[1..])
  }

  function Queued(b: Book, turns: seq<Turn>): Book
    decreases |turns|
  {
    if turns == [] then b else Queued(Joined(b, turns[0].arrivals), turns[1..])
  }

  /** Nothing that is waiting, or that ever arrives, is tried again: every turn only makes the list longer. */
  ghost predicate ShutOut(b: Book, limit: nat) {
    forall turns: seq<Turn> :: Turns(b, limit, turns) == Queued(b, turns)
  }

  predicate Wedged(b: Book, limit: nat) {
    |Page(b, limit)| == limit && forall id | id in Page(b, limit) :: Stuck(b, id) && !SortsLast(b, id)
  }

  /**
  The window is shut for the life of the process, to every row there is and every row to
  come, exactly when its page is full of stuck rows that the audit log does not sort last.
  A page of stuck rows that are sorted last lets the next arrival in.
  */
  lemma ShutOutIff(b: Book, limit: nat)
    requires Distinct(b.pending)
    ensures ShutOut(b, limit) <==> Wedged(b, limit)
  {
    if Wedged(b, limit) {
      forall turns: seq<Turn> ensures Turns(b, limit, turns) == Queued(b, turns) {
        WedgedStays(b, limit, turns);
      }
    } else if id :| id in Page(b, limit) && !Stuck(b, id) {
      assert Joined(b, []) == b && b.pending + [] == b.pending;
      TriedInAStorm(b, limit, [], id);
    } else {
      var id := NewcomerGetsIn(b, limit);
      TriedInAStorm(b, limit, [id], id);
    }
  }

  lemma {:induction false} WedgedStays(b: Book, limit: nat, turns: seq<Turn>)
    requires Wedged(b, limit)
    ensures Turns(b, limit, turns) == Queued(b, turns)
    decreases |turns|
  {
    if turns != [] {
      var c := Joined(b, turns[0].arrivals);
      ArrivalsQueueBehind(b, limit, turns[0].arrivals);
      FrozenAttempts(c, Page(c, limit), turns[0].weather);
      WedgedStays(c, limit, turns[1..]);
    }
  }

  /** The rows of a list that the query puts first. */
  function Firsts(b: Book, rows: seq<RowId>): seq<RowId> {
    Select(rows, (id: RowId) => !SortsLast(b, id))
  }

  lemma {:induction false} SelectAgrees(s: seq<RowId>, keep: RowId -> bool, alike: RowId -> bool)
    requires forall id | id in s :: keep(id) == alike(id)
    ensures Select(s, keep) == Select(s, alike)
  {
    if s != [] {
      SelectAgrees(s[1..], keep, alike);
    }
  }

  /** Arrivals that are not sorted last join the end of the first part. */
  lemma FirstsJoin(b: Book, arrivals: seq<RowId>)
    ensures Firsts(Joined(b, arrivals), Joined(b, arrivals).pending) == Firsts(b, b.pending) + Firsts(b, arrivals)
  {
    var c := Joined(b, arrivals);
    SelectAgrees(c.pending, (id: RowId) => !SortsLast(c, id), (id: RowId) => !SortsLast(b, id));
    SelectConcat(b.pending, arrivals, (id: RowId) => !SortsLast(b, id));
  }

  lemma ArrivalsQueueBehind(b: Book, limit: nat, arrivals: seq<RowId>)
    requires Wedged(b, limit)
    ensures Page(Joined(b, arrivals), limit) == Page(b, limit)
  {
    var c := Joined(b, arrivals);
    FirstsJoin(b, arrivals);
    FullPageIsFirst(b, limit);
    FullPageIsFirst(c, limit);
    assert Firsts(c, c.pending)[..limit] == Firsts(b, b.pending)[..limit];
  }

  /** A full page with nothing sorted last is the start of the first part, and there is one when that part fills it. */
  lemma FullPageIsFirst(b: Book, limit: nat)
    ensures (|Page(b, limit)| == limit && forall id | id in Page(b, limit) :: !SortsLast(b, id))
            <==> |Firsts(b, b.pending)| >= limit
    ensures |Firsts(b, b.pending)| >= limit ==> Page(b, limit) == Firsts(b, b.pending)[..limit]
  {
    var first, last := Firsts(b, b.pending), Select(b.pending, (id: RowId) => SortsLast(b, id));
    assert InOrder(b) == first + last;
    if |first| >= limit {
      assert Page(b, limit) == first[..limit];
      assert forall id | id in first[..limit] :: id in first;
    } else if |Page(b, limit)| == limit {
      assert Page(b, limit)[|first|] == last[0] && last[0] in last && last[0] in Page(b, limit);
    }
  }

  /** A row the process has never heard of. */
  lemma SomeNewcomer(b: Book) returns (id: RowId)
    ensures id !in b.pending && id !in b.failures && id !in b.givenUp
  {
    var known := Members(b.pending) + b.failures.Keys + b.givenUp;
    id := Bound(known);
    assert id !in known;
  }

  lemma {:induction false} Bound(ids: set<RowId>) returns (top: nat)
    ensures forall id | id in ids :: id < top
    decreases ids
  {
    if ids == {} {
      top := 0;
    } else {
      var one :| one in ids;
      var others := Bound(ids - {one});
      top := if one < others then others else one + 1;
      assert forall id | id in ids :: id == one || id in ids - {one};
    }
  }

  lemma NewcomerGetsIn(b: Book, limit: nat) returns (id: RowId)
    requires Distinct(b.pending) && !Wedged(b, limit) && forall other | other in Page(b, limit) :: Stuck(b, other)
    ensures id !in b.pending && !Stuck(b, id) && id in Page(Joined(b, [id]), limit)
  {
    id := SomeNewcomer(b);
    var c, k := Joined(b, [id]), |Firsts(b, b.pending)|;
    FullPageIsFirst(b, limit);
    FirstsJoin(b, [id]);
    assert id in Firsts(b, [id]) && Firsts(b, [id])[0] in [id];
    assert Firsts(c, c.pending)[k] == id;
    assert InOrder(c)[k] == Firsts(c, c.pending)[k];
    EarlyRowIsOnPage(c, limit, k);
  }

  /** One bad sweep is enough to show that a row is still tried. */
  lemma TriedInAStorm(b: Book, limit: nat, arrivals: seq<RowId>, id: RowId)
    requires Distinct(b.pending + arrivals) && id in Page(Joined(b, arrivals), limit) && !Stuck(b, id)
    ensures !ShutOut(b, limit)
  {
    var c := Joined(b, arrivals);
    var storm := Weather((x: RowId) => Threw, (x: RowId) => true);
    PageIsDistinct(c, limit);
    RowsAreIndependent(c, Page(c, limit), storm, id);
    var turns := [Turn(arrivals, storm)];
    assert Turns(b, limit, turns) == Turns(Sweep(c, limit, storm), limit, []);
    assert Queued(b, turns) == Queued(c, []);
    assert Look(Sweep(c, limit, storm), id) != Look(c, id);
    assert Turns(b, limit, turns) != Queued(b, turns);
  }

  /**
  A report given up on once, recovered, and stale again after a review: its next three
  failures leave it stuck and, because it was recovered, still sorted first. A window one
  row wide then never reaches the report behind it, in this process, whatever happens.
  */
  lemma RecoveredReportJamsTheWindow(weathers: seq<Weather>)
    ensures var start := Book([1, 2], map[], {1}, {1});
            var storm := Weather((id: RowId) => if id == 1 then Threw else Produced, (id: RowId) => true);
            var jammed := Sweeps(start, 1, [storm, storm, storm]);
            && Stuck(jammed, 1) && Sweeps(jammed, 1, weathers) == jammed && 2 in jammed.pending
  {
    var storm := Weather((id: RowId) => if id == 1 then Threw else Produced, (id: RowId) => true);
    var b0 := Book([1, 2], map[], {1}, {1});
    var b1 := b0.(failures := map[1 := 1]);
    var b2 := b0.(failures := map[1 := 2]);
    var b3 := b0.(failures := map[1 := 3]);
    FirstOfTwo(b0);
    FirstOfTwo(b1);
    FirstOfTwo(b2);
    FirstOfTwo(b3);
    OneAttempt(b0, 1, storm);
    OneAttempt(b1, 1, storm);
    OneAttempt(b2, 1, storm);
    assert Sweep(b0, 1, storm) == b1;
    assert Sweep(b1, 1, storm) == b2;
    assert Sweep(b2, 1, storm) == b3;
    ThreeSweeps(b0, 1, storm);
    FrozenSweeps(b3, 1, weathers);
  }

  lemma FirstOfTwo(b: Book)
    requires b.pending == [1, 2] && b.recovered == {1} && b.givenUp == {1}
    ensures Page(b, 1) == [1]
  {
    var keep := (id: RowId) => !SortsLast(b, id);
    assert b.pending == [1] + [2];
    SelectConcat([1], [2], keep);
    assert InOrder(b)[0] == 1;
  }

  lemma OneAttempt(b: Book, id: RowId, weather: Weather)
    ensures Attempts(b, [id], weather) == Attempt(b, id, weather)
  {
    assert Attempts(b, [id], weather) == Attempts(Attempt(b, id, weather), [], weather);
  }

  lemma ThreeSweeps(b: Book, limit: nat, w: Weather)
    ensures Sweeps(b, limit, [w, w, w]) == Sweep(Sweep(Sweep(b, limit, w), limit, w), limit, w)
  {
    var c := Sweep(b, limit, w);
    assert Sweeps(b, limit, [w, w, w]) == Sweeps(c, limit, [w, w]);
    assert Sweeps(c, limit, [w, w]) == Sweeps(Sweep(c, limit, w), limit, [w]);
    assert Sweeps(Sweep(c, limit, w), limit, [w]) == Sweeps(Sweep(Sweep(c, limit, w), limit, w), limit, []);
  }
}
