/** How many calls in a row were answered one way. */
module Counting {
  function Number(f: nat -> bool, i: nat, n: nat): (r: nat)
    requires i <= n
    ensures r <= n - i
    decreases n - i
  {
    if i == n then 0 else (if f(i) then 1 else 0) + Number(f, i + 1, n)
  }

  lemma {:induction false} NumberTo(f: nat -> bool, i: nat, n: nat)
    requires i <= n
    ensures Number(f, i, n + 1) == Number(f, i, n) + if f(n) then 1 else 0
    decreases n - i
  {
    if i < n {
      NumberTo(f, i + 1, n);
    }
  }

  /** The count is of the calls, each once. */
  lemma {:induction false} NumberIsOfCalls(f: nat -> bool, n: nat)
    ensures Number(f, 0, n) == |set k: nat | k < n && f(k)|
  {
    if n > 0 {
      NumberIsOfCalls(f, n - 1);
      NumberTo(f, 0, n - 1);
      var before, all := set k: nat | k < n - 1 && f(k), set k: nat | k < n && f(k);
      assert all == before + if f(n - 1) then {n - 1} else {};
    }
  }

  lemma NumberOfThese(f: nat -> bool, n: nat, calls: set<nat>)
    requires forall k: nat :: k in calls <==> k < n && f(k)
    ensures Number(f, 0, n) == |calls|
  {
    NumberIsOfCalls(f, n);
    assert calls == set k: nat | k < n && f(k);
  }
}
