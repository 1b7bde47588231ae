/**
One sweep of a kind at a time, and a bound on how long a kind may stay busy. The
guard is this process's own: another process has its own guard.
*/
module SweepGuard {
  import opened Options

  type Name = nat
  type Instant = int

  const STUCK_AFTER: int := 15 * 60_000

  datatype Entry = Entry(name: Name, startedAt: Instant)
  datatype Stuck = Stuck(name: Name, forMs: int)

  predicate Noted(entries: seq<Entry>, name: Name) {
    exists k | 0 <= k < |entries| :: entries[k].name == name
  }

  function WithoutName(entries: seq<Entry>, name: Name): seq<Entry> {
    if entries == [] then []
    else (if entries[0].name == name then [] else [entries[0]]) + WithoutName(entries[1..], name)
  }

  predicate Distinct(entries: seq<Entry>) {
    forall k, l | 0 <= k < l < |entries| :: entries[k].name != entries[l].name
  }

  lemma {:induction false} WithoutNameKeepsTheRest(entries: seq<Entry>, name: Name)
    requires Distinct(entries)
    ensures var rest := WithoutName(entries, name);
      Distinct(rest) && forall e :: e in rest <==> e in entries && e.name != name
  {
    if entries != [] {
      assert Distinct(entries[1..]) by {
        assert forall k | 0 <= k < |entries[1..]| :: entries[1..][k] == entries[k + 1];
      }
      WithoutNameKeepsTheRest(entries[1..], name);
      assert forall e :: e in entries <==> e == entries[0] || e in entries[1..];
      var tail := WithoutName(entries[1..], name);
      forall k | 0 <= k < |tail| ensures tail[k].name != entries[0].name {
        assert tail[k] in tail;
        var l :| 0 <= l < |entries[1..]| && entries[1..][l] == tail[k];
        assert entries[l + 1] == tail[k];
      }
    }
  }

  /** Settling leaves the other runs in the order they were noted in. */
  lemma {:induction false} OrderIsKept(before: seq<Entry>, after: seq<Entry>, name: Name)
    ensures WithoutName(before + after, name) == WithoutName(before, name) + WithoutName(after, name)
  {
    if before == [] {
      assert before + after == after;
    } else {
      assert (before + after)[0] == before[0] && (before + after)[1..] == before[1..] + after;
      OrderIsKept(before[1..], after, name);
    }
  }

  /** Started longer than the bound ago. */
  predicate Overdue(e: Entry, at: Instant) {
    at - e.startedAt > STUCK_AFTER
  }

  /** What a guard knows: the names that are busy, and when each was noted. */
  datatype State = State(running: set<Name>, noted: seq<Entry>)

  const NEW := State({}, [])

  predicate IsFree(s: State, name: Name) {
    name !in s.running
  }

  function AfterOnce(s: State, name: Name, at: Instant): State {
    if IsFree(s, name) then State(s.running + {name}, s.noted + [Entry(name, at)]) else s
  }

  function AfterSettled(s: State, name: Name): State {
    State(s.running - {name}, WithoutName(s.noted, name))
  }

  class Guard {
    var runningSweeps: set<Name>
    /** In the order they were noted. */
    var sweepsRunning: seq<Entry>
    /** Runs whose promise has not settled. */
    ghost var unsettled: multiset<Name>

    ghost function Value(): State
      reads this
    {
      State(runningSweeps, sweepsRunning)
    }

    ghost predicate Valid()
      reads this
    {
      && Distinct(sweepsRunning)
      && (forall name :: name in runningSweeps <==> Noted(sweepsRunning, name))
      && (forall name :: unsettled[name] == if name in runningSweeps then 1 else 0)
    }

    constructor ()
      ensures Valid() && Value() == NEW
    {
      runningSweeps, sweepsRunning, unsettled := {}, [], multiset{};
    }

    /** A tick either starts the only run of its name, or is skipped and changes nothing. */
    method Once(name: Name, at: Instant) returns (started: bool)
      requires Valid()
      modifies this
      ensures Valid()
      ensures started == IsFree(old(Value()), name) && Value() == AfterOnce(old(Value()), name, at)
      ensures started <==> name !in old(runningSweeps)
      ensures started ==> runningSweeps == old(runningSweeps) + {name} && sweepsRunning == old(sweepsRunning) + [Entry(name, at)]
      ensures started ==> unsettled == old(unsettled) + multiset{name} && unsettled[name] == 1
      ensures !started ==> Value() == old(Value()) && unsettled == old(unsettled)
    {
      if name in runningSweeps {
        return false;
      }
      ghost var before := sweepsRunning;
      assert !Noted(sweepsRunning, name);
      runningSweeps := runningSweeps + {name};
      sweepsRunning := sweepsRunning + [Entry(name, at)];
      unsettled := unsettled + multiset{name};
      assert sweepsRunning[|before|] == Entry(name, at);
      forall other ensures other in runningSweeps <==> Noted(sweepsRunning, other) {
        if Noted(before, other) {
          var k :| 0 <= k < |before| && before[k].name == other;
          assert sweepsRunning[k].name == other;
        }
      }
      return true;
    }

    /** Settling, whether the work threw or not, is what frees the name. */
    method Settled(name: Name)
      requires Valid() && name in runningSweeps
      modifies this
      ensures Valid()
      ensures Value() == AfterSettled(old(Value()), name)
      ensures runningSweeps == old(runningSweeps) - {name}
      ensures forall e :: e in sweepsRunning <==> e in old(sweepsRunning) && e.name != name
      ensures unsettled == old(unsettled) - multiset{name}
    {
      ghost var before := sweepsRunning;
      WithoutNameKeepsTheRest(sweepsRunning, name);
      runningSweeps := runningSweeps - {name};
      sweepsRunning := WithoutName(sweepsRunning, name);
      unsettled := unsettled - multiset{name};
      forall other ensures other in runningSweeps <==> Noted(sweepsRunning, other) {
        NotedByMembership(before, other);
        NotedByMembership(sweepsRunning, other);
      }
    }

    /**
    The one that has been running longest among those past the bound, the first noted of equals;
    none, if none is past it.
    */
    method StuckSweep(at: Instant) returns (worst: Option<Stuck>)
      requires Valid()
      ensures worst == None <==> forall k | 0 <= k < |sweepsRunning| :: at - sweepsRunning[k].startedAt <= 900_000
      ensures worst.Some? ==> exists k | 0 <= k < |sweepsRunning| ::
        && worst.value == Stuck(sweepsRunning[k].name, at - sweepsRunning[k].startedAt) && at - sweepsRunning[k].startedAt > 900_000
        && (forall l | 0 <= l < |sweepsRunning| :: sweepsRunning[l].startedAt >= sweepsRunning[k].startedAt)
        && (forall l | 0 <= l < k :: sweepsRunning[l].startedAt > sweepsRunning[k].startedAt)
      ensures worst.Some? ==> worst.value.name in runningSweeps
    {
      worst := None;
      ghost var found := 0;
      for i := 0 to |sweepsRunning|
        invariant worst == None ==> forall k | 0 <= k < i :: !Overdue(sweepsRunning[k], at)
        invariant worst.Some? ==>
          && 0 <= found < i && worst.value == Stuck(sweepsRunning[found].name, at - sweepsRunning[found].startedAt)
          && Overdue(sweepsRunning[found], at)
          && (forall l | 0 <= l < i :: sweepsRunning[l].startedAt >= sweepsRunning[found].startedAt)
          && (forall l | 0 <= l < found :: sweepsRunning[l].startedAt > sweepsRunning[found].startedAt)
      {
        var forMs := at - sweepsRunning[i].startedAt;
        if forMs > STUCK_AFTER && (worst.None? || forMs > worst.value.forMs) {
          worst := Some(Stuck(sweepsRunning[i].name, forMs));
          found := i;
        }
      }
    }
  }

  lemma NotedByMembership(entries: seq<Entry>, name: Name)
    ensures Noted(entries, name) <==> exists e :: e in entries && e.name == name
  {
    if Noted(entries, name) {
      var k :| 0 <= k < |entries| && entries[k].name == name;
      assert entries[k] in entries;
    }
  }
}
