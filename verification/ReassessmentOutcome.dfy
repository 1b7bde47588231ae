/** What a re-assessment sweep comes to, told from the applications, the page and the answers alone. */
module ReassessmentOutcome {
  import opened Options
  import opened Counting
  import opened Reassessment

  /** Thirty days after the last time for the certified plans, fourteen for an organisation's; never for the others. */
  predicate TimeIsUp(plan: Plan, last: Instant, asked: Instant) {
    || ((plan == Certified || plan == Agency) && asked - last >= 2_592_000_000)
    || (plan == Organisation && asked - last >= 1_209_600_000)
  }

  /** What the query asks of an application: `last` is the later of its stamp and its last assessment. */
  lemma DueIff(app: App, last: Instant, asked: Instant)
    requires (app.stamp == Some(last) || app.assessed == Some(last)) && last > 0
    requires (app.stamp.Some? ==> app.stamp.value <= last) && (app.assessed.Some? ==> app.assessed.value <= last)
    ensures IsDue(app, asked) <==> app.authorised && app.live == NoRequest && TimeIsUp(app.plan, last, asked)
    ensures LastAssessed(app) == last
  {
  }

  /** An application nobody has assessed or stamped is not overdue. */
  lemma NeverStarted(app: App, asked: Instant)
    requires (app.stamp.Some? ==> app.stamp.value <= 0) && (app.assessed.Some? ==> app.assessed.value <= 0)
    ensures !IsDue(app, asked)
  {
  }

  /** A row whose time is up, of an application with no live request, whose transaction commits. */
  predicate Goes(s: Schedule, page: seq<DueApp>, k: nat, asked: Instant, answers: Answers)
    requires k < |page|
  {
    && page[k].id in s.apps && s.apps[page[k].id].live == NoRequest
    && TimeIsUp(page[k].plan, page[k].last, asked) && answers.commits(k)
  }

  function Going(s: Schedule, page: seq<DueApp>, asked: Instant, answers: Answers): nat -> bool {
    (k: nat) => k < |page| && Goes(s, page, k, asked, answers)
  }

  predicate OneEach(page: seq<DueApp>) {
    forall k, l | 0 <= k < l < |page| :: page[k].id != page[l].id
  }

  lemma InsertedIff(s: Schedule, page: seq<DueApp>, k: nat, asked: Instant, answers: Answers)
    requires k < |page|
    ensures Inserted(s, page[k], asked, answers.commits(k)) <==> Goes(s, page, k, asked, answers)
  {
  }

  /** Queuing one row leaves every other application as it was. */
  lemma OthersGoAsBefore(s: Schedule, page: seq<DueApp>, i: nat, asked: Instant, answers: Answers)
    requires i < |page| && OneEach(page)
    ensures var t := QueueOne(s, page[i], asked, answers.times(i), answers.commits(i));
      && (forall id | id in s.apps && id != page[i].id :: id in t.apps && t.apps[id] == s.apps[id])
      && t.apps.Keys == s.apps.Keys
      && forall k: nat | i < k < |page| :: Going(t, page, asked, answers)(k) == Going(s, page, asked, answers)(k)
  {
  }

  lemma {:induction false} SameNumber(f: nat -> bool, g: nat -> bool, i: nat, n: nat)
    requires i <= n && forall k: nat | i <= k < n :: f(k) == g(k)
    ensures Number(f, i, n) == Number(g, i, n)
    decreases n - i
  {
    if i < n {
      SameNumber(f, g, i + 1, n);
    }
  }

  /**
  Each application of the page is stamped and made live, and its request made, exactly when
  its row goes; requests are in the page's order, and no other application changes.
  */
  lemma {:induction false} SweepQueues(s: Schedule, page: seq<DueApp>, i: nat, asked: Instant, answers: Answers, k: nat)
    requires i <= |page| && OneEach(page)
    ensures var u, going := QueueFrom(s, page, i, asked, answers), Going(s, page, asked, answers);
      && u.apps.Keys == s.apps.Keys && s.requests <= u.requests
      && |u.requests| == |s.requests| + Number(going, i, |page|)
      && (forall id | id in s.apps && (forall l | i <= l < |page| :: page[l].id != id) :: u.apps[id] == s.apps[id])
      && (i <= k < |page| && !Goes(s, page, k, asked, answers) && page[k].id in s.apps ==> u.apps[page[k].id] == s.apps[page[k].id])
      && (i <= k < |page| && Goes(s, page, k, asked, answers) ==>
            && u.apps[page[k].id] == s.apps[page[k].id].(stamp := Some(answers.times(k)), live := Scheduled(answers.times(k)))
            && Number(going, i, k) < Number(going, i, |page|)
            && u.requests[|s.requests| + Number(going, i, k)] == Request(page[k].id, answers.times(k), page[k].plan))
    decreases |page| - i
  {
    if i < |page| {
      var t := QueueOne(s, page[i], asked, answers.times(i), answers.commits(i));
      InsertedIff(s, page, i, asked, answers);
      OthersGoAsBefore(s, page, i, asked, answers);
      SweepQueues(t, page, i + 1, asked, answers, k);
      SameNumber(Going(t, page, asked, answers), Going(s, page, asked, answers), i + 1, |page|);
      if i < k < |page| {
        SameNumber(Going(t, page, asked, answers), Going(s, page, asked, answers), i + 1, k);
      }
    }
  }
}
