/** What one sweep of the window comes to, told from the book and the weather alone. */
module WindowOutcome {
  import opened StuckWindow
  import opened SweepFairness

  // ----- the page -----------------------------------------------------------

  /** Given up on, and not recovered since: the query puts these last. */
  predicate Last(b: Book, id: RowId) {
    id in b.givenUp && id !in b.recovered
  }

  lemma {:induction false} SelectKeepsAll(s: seq<RowId>, keep: RowId -> bool, drop: RowId -> bool)
    requires forall id | id in s :: keep(id) != drop(id)
    ensures multiset(Select(s, keep)) + multiset(Select(s, drop)) == multiset(s)
  {
    if s != [] {
      assert s == [s[0]] + s[1..];
      SelectKeepsAll(s[1..], keep, drop);
    }
  }

  predicate Stands(s: seq<RowId>, x: RowId, y: RowId) {
    exists m, n :: 0 <= m < n < |s| && s[m] == x && s[n] == y
  }

  lemma {:induction false} SelectKeepsOrder(s: seq<RowId>, keep: RowId -> bool, i: nat, j: nat)
    requires i < j < |Select(s, keep)|
    ensures Stands(s, Select(s, keep)[i], Select(s, keep)[j])
  {
    var r, rest := Select(s, keep), Select(s[1..], keep);
    if keep(s[0]) && i == 0 {
      assert r[j] == rest[j - 1] && rest[j - 1] in rest;
      var n :| 0 <= n < |s[1..]| && s[1..][n] == r[j];
      assert s[0] == r[0] && s[n + 1] == r[j];
    } else {
      var skipped := if keep(s[0]) then 1 else 0;
      SelectKeepsOrder(s[1..], keep, i - skipped, j - skipped);
      var m, n :| 0 <= m < n < |s[1..]| && s[1..][m] == r[i] && s[1..][n] == r[j];
      assert s[m + 1] == r[i] && s[n + 1] == r[j];
    }
  }

  /** The page is of the pending rows, as many as there are up to the limit. */
  lemma PageIsOfPending(b: Book, limit: nat)
    ensures |Page(b, limit)| == if |b.pending| <= limit then |b.pending| else limit
    ensures |b.pending| <= limit ==> multiset(Page(b, limit)) == multiset(b.pending)
    ensures forall id | id in Page(b, limit) :: id in b.pending
  {
    var first, last := (id: RowId) => !SortsLast(b, id), (id: RowId) => SortsLast(b, id);
    SelectKeepsAll(b.pending, first, last);
    var a, z := Select(b.pending, first), Select(b.pending, last);
    assert InOrder(b) == a + z;
    assert |multiset(a)| == |a| && |multiset(z)| == |z| && |multiset(b.pending)| == |b.pending|;
    assert |multiset(a) + multiset(z)| == |a| + |z|;
  }

  /** Rows given up on are after all others, and either kind is in the order it is pending in. */
  lemma PageInOrder(b: Book, limit: nat, i: nat, j: nat)
    requires i < j < |Page(b, limit)|
    ensures var page := Page(b, limit);
      && (Last(b, page[i]) ==> Last(b, page[j]))
      && ((Last(b, page[i]) <==> Last(b, page[j])) ==> Stands(b.pending, page[i], page[j]))
  {
    var first, last := (id: RowId) => !SortsLast(b, id), (id: RowId) => SortsLast(b, id);
    var a, z := Select(b.pending, first), Select(b.pending, last);
    EitherPart(a, z, i);
    EitherPart(a, z, j);
    if j < |a| {
      SelectKeepsOrder(b.pending, first, i, j);
    } else if i >= |a| {
      SelectKeepsOrder(b.pending, last, i - |a|, j - |a|);
    }
  }

  lemma EitherPart(a: seq<RowId>, z: seq<RowId>, i: nat)
    requires i < |a| + |z|
    ensures if i < |a| then (a + z)[i] == a[i] && a[i] in a else (a + z)[i] == z[i - |a|] && z[i - |a|] in z
  {
  }

  // ----- each row -----------------------------------------------------------

  /** A row not on the page, or failed three times, or that comes to nothing, is as it was. */
  lemma RowLeftAlone(b: Book, limit: nat, weather: Weather, id: RowId)
    requires Distinct(b.pending)
    requires id !in Page(b, limit) || Count(b.failures, id) >= 3 || weather.outcome(id).Nothing?
    ensures var c := Sweep(b, limit, weather);
      && (id in c.pending <==> id in b.pending) && Count(c.failures, id) == Count(b.failures, id)
      && (id in c.givenUp <==> id in b.givenUp) && (id in c.recovered <==> id in b.recovered)
  {
    PageIsDistinct(b, limit);
    RowsAreIndependent(b, Page(b, limit), weather, id);
    assert Look(Sweep(b, limit, weather), id) == Look(b, id);
  }

  /** A row that produces leaves, its count forgotten, and recovered if it had been given up on and that is written down. */
  lemma RowProduced(b: Book, limit: nat, weather: Weather, id: RowId)
    requires Distinct(b.pending) && id in Page(b, limit) && Count(b.failures, id) < 3 && weather.outcome(id).Produced?
    ensures var c := Sweep(b, limit, weather);
      && id !in c.pending && Count(c.failures, id) == 0 && (id in c.givenUp <==> id in b.givenUp)
      && (id in c.recovered <==> id in b.recovered || (id in b.givenUp && weather.auditWorks(id)))
  {
    PageIsDistinct(b, limit);
    RowsAreIndependent(b, Page(b, limit), weather, id);
    var look := Look(Sweep(b, limit, weather), id);
    assert !look.waiting && look.failures == 0;
  }

  /** A row that throws stays, its count one more, and given up on at three if that is written down. */
  lemma RowThrew(b: Book, limit: nat, weather: Weather, id: RowId)
    requires Distinct(b.pending) && id in Page(b, limit) && Count(b.failures, id) < 3 && weather.outcome(id).Threw?
    ensures var c := Sweep(b, limit, weather);
      && id in c.pending && Count(c.failures, id) == Count(b.failures, id) + 1
      && (id in c.recovered <==> id in b.recovered)
      && (id in c.givenUp <==> id in b.givenUp || (Count(b.failures, id) == 2 && weather.auditWorks(id)))
  {
    PageIsDistinct(b, limit);
    PageIsOfPending(b, limit);
    RowsAreIndependent(b, Page(b, limit), weather, id);
    var look := Look(Sweep(b, limit, weather), id);
    assert look.waiting && look.failures == Count(b.failures, id) + 1;
  }

  // ----- the count ----------------------------------------------------------

  /** Rows of these that are not stuck and produce. */
  function Producing(b: Book, rows: seq<RowId>, weather: Weather): set<RowId> {
    set id | id in rows && Count(b.failures, id) < 3 && weather.outcome(id).Produced?
  }

  lemma ProducingNext(b: Book, first: RowId, rest: seq<RowId>, weather: Weather)
    requires first !in rest
    ensures Producing(Attempt(b, first, weather), rest, weather) == Producing(b, rest, weather)
  {
    forall id | id in rest ensures Count(Attempt(b, first, weather).failures, id) == Count(b.failures, id) {
      AttemptElsewhere(b, first, weather, id);
      assert Look(Attempt(b, first, weather), id).failures == Look(b, id).failures;
    }
  }

  lemma ProducingFirst(b: Book, first: RowId, rest: seq<RowId>, weather: Weather)
    requires first !in rest
    ensures |Producing(b, [first] + rest, weather)|
         == (if Count(b.failures, first) < 3 && weather.outcome(first).Produced? then 1 else 0) + |Producing(b, rest, weather)|
  {
    var own := if Count(b.failures, first) < 3 && weather.outcome(first).Produced? then {first} else {};
    assert Producing(b, [first] + rest, weather) == own + Producing(b, rest, weather);
  }

  /** What the sweep reports is how many of its page it produced for. */
  lemma {:induction false} ProductionIsOfRows(b: Book, rows: seq<RowId>, weather: Weather)
    requires Distinct(rows)
    ensures Production(b, rows, weather) == |Producing(b, rows, weather)|
    decreases rows
  {
    if rows != [] {
      assert forall id | id in rows[1..] :: id != rows[0];
      ProductionIsOfRows(Attempt(b, rows[0], weather), rows[1..], weather);
      ProducingNext(b, rows[0], rows[1..], weather);
      ProducingFirst(b, rows[0], rows[1..], weather);
      assert rows == [rows[0]] + rows[1..];
    }
  }
}
