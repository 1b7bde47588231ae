/**
A badge's stored status, and every statement of the sweeps that may change it. A
suspension carries the sentence it was made with, and what lifts it matches that
sentence.
*/
module BadgeLifecycle {
  import opened Options

  type BadgeId = nat
  type AppId = nat
  type OrgId = nat
  type Instant = int

  datatype Status = Active | Suspended | Expired | Revoked

  datatype Badge = Badge(
    status: Status,
    suspendedAt: Option<Instant>,
    reason: Option<string>,
    app: AppId,
    org: OrgId,
    expiresAt: Instant)

  type Table = map<BadgeId, Badge>

  const LAPSED: string := "The subscription " +
    "that maintains this verification is no longer active, so monitoring has stopped."
  const WITHDRAWN: string := "The authorisation " +
    "to test this application has been withdrawn, so monitoring has stopped. This is not a finding about the application."
  const NO_RESPONSE: string := "The application did not respond"
  const MATERIAL_CHANGE: string := "Material change found at re-assessment on "

  // ----- the facts the statements read --------------------------------------

  datatype Subscription = Trialing | Live | PastDue | Cancelled | Paused

  /**
  Subscriptions by organisation, applications with a paid and not wholly refunded invoice,
  applications authorised.
  */
  datatype Facts = Facts(subscriptions: map<OrgId, set<Subscription>>, paidFor: set<AppId>, authorised: set<AppId>)

  predicate Lapsed(f: Facts, b: Badge) {
    && b.org in f.subscriptions
    && f.subscriptions[b.org] * {PastDue, Cancelled, Paused} != {}
    && f.subscriptions[b.org] * {Live, Trialing} == {}
    && b.app !in f.paidFor
  }

  predicate Authorised(f: Facts, b: Badge) {
    b.app in f.authorised
  }

  // ----- one statement on one badge -----------------------------------------

  predicate Expires(b: Badge, now: Instant) {
    b.status == Active && b.expiresAt <= now
  }

  function Suspend(b: Badge, reason: string, now: Instant): Badge {
    b.(status := Suspended, suspendedAt := Some(now), reason := Some(reason))
  }

  function Restore(b: Badge): Badge {
    b.(status := Active, suspendedAt := None, reason := None)
  }

  function ExpireOne(b: Badge, now: Instant): Badge {
    if Expires(b, now) then b.(status := Expired) else b
  }

  function LapseOne(b: Badge, f: Facts, now: Instant): Badge {
    if b.status == Active && Lapsed(f, b) then Suspend(b, LAPSED, now) else b
  }

  function WithdrawOne(b: Badge, f: Facts, now: Instant): Badge {
    if b.status == Active && !Authorised(f, b) then Suspend(b, WITHDRAWN, now) else b
  }

  predicate Reauthorised(b: Badge, f: Facts, now: Instant) {
    b.status == Suspended && b.reason == Some(WITHDRAWN) && b.expiresAt > now && Authorised(f, b)
  }

  function ReauthoriseOne(b: Badge, f: Facts, now: Instant): Badge {
    if Reauthorised(b, f, now) then Restore(b) else b
  }

  /** The four statements of one lifecycle sweep, with the facts and the clock standing still. */
  function SweepOne(b: Badge, f: Facts, now: Instant): Badge {
    ReauthoriseOne(WithdrawOne(LapseOne(ExpireOne(b, now), f, now), f, now), f, now)
  }

  function Sweep(t: Table, f: Facts, now: Instant): (r: Table)
    ensures r.Keys == t.Keys
  {
    map id | id in t :: SweepOne(t[id], f, now)
  }

  // ----- the sweep on the table ---------------------------------------------

  function With(t: Table, status: Status): set<BadgeId> {
    set id | id in t && t[id].status == status
  }

  class BadgeTable {
    var badges: Table

    constructor ()
      ensures badges == map[]
    {
      badges := map[];
    }

    method ExpireStatement(now: Instant) returns (count: nat)
      modifies this
      ensures badges == map id | id in old(badges) :: ExpireOne(old(badges)[id], now)
      ensures Shifted(old(badges), badges, Active, Expired, count)
    {
      ghost var before := badges;
      var going := set id | id in badges && Expires(badges[id], now);
      badges := map id | id in badges :: ExpireOne(badges[id], now);
      Moved(before, badges, going, Active, Expired);
      return |going|;
    }

    method LapseStatement(f: Facts, now: Instant) returns (count: nat)
      modifies this
      ensures badges == map id | id in old(badges) :: LapseOne(old(badges)[id], f, now)
      ensures Shifted(old(badges), badges, Active, Suspended, count)
    {
      ghost var before := badges;
      var going := set id | id in badges && badges[id].status == Active && Lapsed(f, badges[id]);
      badges := map id | id in badges :: LapseOne(badges[id], f, now);
      Moved(before, badges, going, Active, Suspended);
      return |going|;
    }

    method WithdrawStatement(f: Facts, now: Instant) returns (count: nat)
      modifies this
      ensures badges == map id | id in old(badges) :: WithdrawOne(old(badges)[id], f, now)
      ensures Shifted(old(badges), badges, Active, Suspended, count)
    {
      ghost var before := badges;
      var going := set id | id in badges && badges[id].status == Active && !Authorised(f, badges[id]);
      badges := map id | id in badges :: WithdrawOne(badges[id], f, now);
      Moved(before, badges, going, Active, Suspended);
      return |going|;
    }

    method ReauthoriseStatement(f: Facts, now: Instant) returns (count: nat)
      modifies this
      ensures badges == map id | id in old(badges) :: ReauthoriseOne(old(badges)[id], f, now)
      ensures Shifted(old(badges), badges, Suspended, Active, count)
    {
      ghost var before := badges;
      var back := set id | id in badges && Reauthorised(badges[id], f, now);
      badges := map id | id in badges :: ReauthoriseOne(badges[id], f, now);
      Moved(before, badges, back, Suspended, Active);
      return |back|;
    }

    /** The counts it reports account for every badge that changed status. */
    method SweepBadgeLifecycle(f: Facts, now: Instant)
      returns (expired: nat, suspended: nat, unauthorised: nat, reauthorised: nat)
      modifies this
      ensures badges == Sweep(old(badges), f, now)
      ensures |With(badges, Expired)| == |With(old(badges), Expired)| + expired
      ensures |With(badges, Active)| == |With(old(badges), Active)| - expired - suspended - unauthorised + reauthorised
      ensures |With(badges, Suspended)| == |With(old(badges), Suspended)| + suspended + unauthorised - reauthorised
      ensures With(badges, Revoked) == With(old(badges), Revoked)
    {
      ghost var t := badges;
      expired := ExpireStatement(now);
      ghost var u := badges;
      suspended := LapseStatement(f, now);
      ghost var v := badges;
      unauthorised := WithdrawStatement(f, now);
      ghost var w := badges;
      reauthorised := ReauthoriseStatement(f, now);
      StatementsAreTheSweep(t, u, v, w, badges, f, now);
      CountsAddUp(t, u, v, w, badges, expired, suspended, unauthorised, reauthorised);
    }
  }

  lemma StatementsAreTheSweep(t: Table, u: Table, v: Table, w: Table, x: Table, f: Facts, now: Instant)
    requires u == map id | id in t :: ExpireOne(t[id], now)
    requires v == map id | id in u :: LapseOne(u[id], f, now)
    requires w == map id | id in v :: WithdrawOne(v[id], f, now)
    requires x == map id | id in w :: ReauthoriseOne(w[id], f, now)
    ensures x == Sweep(t, f, now)
  {
    assert forall id | id in t :: x[id] == SweepOne(t[id], f, now);
  }

  lemma CountsAddUp(t: Table, u: Table, v: Table, w: Table, x: Table, expired: nat, suspended: nat,
                    unauthorised: nat, reauthorised: nat)
    requires Shifted(t, u, Active, Expired, expired) && Shifted(u, v, Active, Suspended, suspended)
    requires Shifted(v, w, Active, Suspended, unauthorised) && Shifted(w, x, Suspended, Active, reauthorised)
    ensures |With(x, Expired)| == |With(t, Expired)| + expired
    ensures |With(x, Active)| == |With(t, Active)| - expired - suspended - unauthorised + reauthorised
    ensures |With(x, Suspended)| == |With(t, Suspended)| + suspended + unauthorised - reauthorised
    ensures With(x, Revoked) == With(t, Revoked)
  {
    assert With(x, Expired) == With(w, Expired) == With(v, Expired) == With(u, Expired);
    assert With(x, Revoked) == With(w, Revoked) == With(v, Revoked) == With(u, Revoked);
    assert With(u, Suspended) == With(t, Suspended);
  }

  /** Some rows moved from one status to another, and no others changed status. */
  ghost predicate Shifted(t: Table, u: Table, from: Status, to: Status, count: nat) {
    && |With(u, from)| == |With(t, from)| - count && |With(u, to)| == |With(t, to)| + count
    && forall s | s != from && s != to :: With(u, s) == With(t, s)
  }

  /** A statement that moves some rows from one status to another moves the counts by as many. */
  lemma Moved(t: Table, u: Table, ids: set<BadgeId>, from: Status, to: Status)
    requires t.Keys == u.Keys && from != to
    requires forall id | id in t :: if id in ids then t[id].status == from && u[id].status == to else u[id] == t[id]
    requires ids <= t.Keys
    ensures Shifted(t, u, from, to, |ids|)
  {
    assert With(t, from) == With(u, from) + ids && With(u, from) !! ids;
    assert With(u, to) == With(t, to) + ids && With(t, to) !! ids;
    forall s | s != from && s != to ensures With(u, s) == With(t, s) {
      forall id | id in t ensures u[id].status == s <==> t[id].status == s {
      }
    }
  }

  // ----- what one sweep does to one badge -----------------------------------

  /** What an organisation subscribes to; nothing, if the table has nothing of it. */
  function SubscriptionsOf(f: Facts, org: OrgId): set<Subscription> {
    if org in f.subscriptions then f.subscriptions[org] else {}
  }

  /**
  An active badge is left exactly as it is when it is in its term, its application
  authorised, and its organisation either live or trialing, or in no trouble, or its
  application paid for. Otherwise the first of the three that fails decides: it expires,
  or it is suspended now, for the lapse or for the withdrawal.
  */
  lemma ActiveOutcome(t: Table, f: Facts, now: Instant, id: BadgeId)
    requires id in t && t[id].status == Active
    ensures var b, c := t[id], Sweep(t, f, now)[id];
      var subs := SubscriptionsOf(f, b.org);
      var paying := Live in subs || Trialing in subs || b.app in f.paidFor;
      var troubled := PastDue in subs || Cancelled in subs || Paused in subs;
      && (c == b <==> now < b.expiresAt && b.app in f.authorised && (paying || !troubled))
      && (c == b.(status := Expired) <==> b.expiresAt <= now)
      && (c == b.(status := Suspended, suspendedAt := Some(now), reason := Some(LAPSED)) <==>
            now < b.expiresAt && troubled && !paying)
      && (c == b.(status := Suspended, suspendedAt := Some(now), reason := Some(WITHDRAWN)) <==>
            now < b.expiresAt && (paying || !troubled) && b.app !in f.authorised)
  {
    ReasonsDiffer();
    LapsedIff(f, t[id]);
  }

  lemma LapsedIff(f: Facts, b: Badge)
    ensures var subs := SubscriptionsOf(f, b.org);
      Lapsed(f, b) <==>
        && (PastDue in subs || Cancelled in subs || Paused in subs)
        && !(Live in subs || Trialing in subs || b.app in f.paidFor)
  {
    if b.org in f.subscriptions {
      var subs := f.subscriptions[b.org];
      assert PastDue in subs ==> PastDue in subs * {PastDue, Cancelled, Paused};
      assert Cancelled in subs ==> Cancelled in subs * {PastDue, Cancelled, Paused};
      assert Paused in subs ==> Paused in subs * {PastDue, Cancelled, Paused};
      assert Live in subs ==> Live in subs * {Live, Trialing};
      assert Trialing in subs ==> Trialing in subs * {Live, Trialing};
    }
  }

  /** Any other badge is left as it is, but for one down for a withdrawal that is authorised again and in its term. */
  lemma OtherOutcome(t: Table, f: Facts, now: Instant, id: BadgeId)
    requires id in t && t[id].status != Active
    ensures var b, c := t[id], Sweep(t, f, now)[id];
      if b.status == Suspended && b.reason == Some(WITHDRAWN) && now < b.expiresAt && b.app in f.authorised
      then c == b.(status := Active, suspendedAt := None, reason := None)
      else c == b
  {
  }

  // ----- convergence --------------------------------------------------------

  /** After one sweep, a badge that reads as active is inside its term and authorised. */
  lemma ActiveMeansCurrent(t: Table, f: Facts, now: Instant)
    ensures forall id | id in t && Sweep(t, f, now)[id].status == Active ::
      t[id].expiresAt > now && Authorised(f, t[id])
  {
    forall id | id in t && Sweep(t, f, now)[id].status == Active
      ensures t[id].expiresAt > now && Authorised(f, t[id])
    {
      assert SweepOne(t[id], f, now).status == Active;
    }
  }

  /** A badge lapsed while it was down for a withdrawal that has been taken back: the one that needs two sweeps. */
  predicate NeedsTwo(b: Badge, f: Facts, now: Instant) {
    Reauthorised(b, f, now) && Lapsed(f, b)
  }

  /** Two sweeps always settle everything, and one does exactly when no badge is in the two-sweep case. */
  lemma SweepSettles(t: Table, f: Facts, now: Instant)
    ensures Sweep(Sweep(Sweep(t, f, now), f, now), f, now) == Sweep(Sweep(t, f, now), f, now)
    ensures Sweep(Sweep(t, f, now), f, now) == Sweep(t, f, now) <==> forall id | id in t :: !NeedsTwo(t[id], f, now)
  {
    var once := Sweep(t, f, now);
    var twice := Sweep(once, f, now);
    var thrice := Sweep(twice, f, now);
    forall id | id in t
      ensures thrice[id] == twice[id]
      ensures twice[id] == once[id] <==> !NeedsTwo(t[id], f, now)
    {
      OneBadgeSettles(t[id], f, now);
    }
    assert thrice == twice;
    if id :| id in t && NeedsTwo(t[id], f, now) {
      assert twice[id] != once[id];
    } else {
      assert twice == once;
    }
  }

  lemma OneBadgeSettles(b: Badge, f: Facts, now: Instant)
    ensures var c := SweepOne(b, f, now);
            var d := SweepOne(c, f, now);
            && SweepOne(d, f, now) == d && (d == c <==> !NeedsTwo(b, f, now))
  {
    ReasonsDiffer();
  }

  lemma ReasonsDiffer()
    ensures LAPSED != WITHDRAWN
    ensures !(NO_RESPONSE <= LAPSED) && !(NO_RESPONSE <= WITHDRAWN)
    ensures forall rest: string :: MATERIAL_CHANGE + rest != WITHDRAWN && !(NO_RESPONSE <= MATERIAL_CHANGE + rest)
    ensures forall rest: string :: NO_RESPONSE + rest != WITHDRAWN
  {
    assert LAPSED[4] == 's' && WITHDRAWN[5] == 'u' && NO_RESPONSE[5] == 'p' && NO_RESPONSE[4] == 'a';
    forall rest: string
      ensures MATERIAL_CHANGE + rest != WITHDRAWN && !(NO_RESPONSE <= MATERIAL_CHANGE + rest)
      ensures NO_RESPONSE + rest != WITHDRAWN
    {
      assert (MATERIAL_CHANGE + rest)[0] == 'M' && WITHDRAWN[0] == 'T' && NO_RESPONSE[0] == 'T';
      assert (NO_RESPONSE + rest)[5] == 'p';
    }
  }

  // ----- every statement, in any order --------------------------------------

  /** The sweeps' statements, each with the facts and the clock it happened to read. */
  datatype Step =
    | ExpireAll(now: Instant)
    | LapseAll(f: Facts, now: Instant)
    | WithdrawAll(f: Facts, now: Instant)
    | ReauthoriseAll(f: Facts, now: Instant)
    | DriftSuspend(app: AppId, date: string, now: Instant)
    | LivenessSuspend(id: BadgeId, detail: string, now: Instant)
    | LivenessRestore(id: BadgeId)

  function StepOne(step: Step, id: BadgeId, b: Badge): Badge {
    match step
    case ExpireAll(now) => ExpireOne(b, now)
    case LapseAll(f, now) => LapseOne(b, f, now)
    case WithdrawAll(f, now) => WithdrawOne(b, f, now)
    case ReauthoriseAll(f, now) => ReauthoriseOne(b, f, now)
    case DriftSuspend(app, date, now) =>
      if b.app == app && b.status == Active then Suspend(b, MATERIAL_CHANGE + date + ".", now) else b
    case LivenessSuspend(target, detail, now) =>
      if target == id && b.status == Active then Suspend(b, NO_RESPONSE + detail, now) else b
    case LivenessRestore(target) =>
      if target == id && b.status == Suspended && b.reason.Some? && NO_RESPONSE <= b.reason.value then Restore(b) else b
  }

  function Apply(step: Step, t: Table): (r: Table)
    ensures r.Keys == t.Keys
  {
    map id | id in t :: StepOne(step, id, t[id])
  }

  function Run(steps: seq<Step>, t: Table): (r: Table)
    ensures r.Keys == t.Keys
  {
    if steps == [] then t else Apply(steps[|steps| - 1], Run(steps[..|steps| - 1], t))
  }

  /** Sentences no sweep lifts: neither restorer's match can succeed on them. */
  predicate Sticks(reason: string) {
    reason != WITHDRAWN && !(NO_RESPONSE <= reason)
  }

  /** One statement, one badge: who may change what. */
  lemma WhoMayChangeWhat(step: Step, id: BadgeId, b: Badge)
    ensures var c := StepOne(step, id, b);
            && c.(status := b.status, suspendedAt := b.suspendedAt, reason := b.reason) == b
            && (b.status == Expired || b.status == Revoked ==> c == b)
            && (b.status == Suspended && c.status == Suspended ==> c == b)
            && (b.status == Suspended && c.status != Suspended ==>
                  && c == Restore(b)
                  && (|| (step.ReauthoriseAll? && b.reason == Some(WITHDRAWN)
                          && Authorised(step.f, b) && b.expiresAt > step.now)
                      || (step.LivenessRestore? && b.reason.Some? && NO_RESPONSE <= b.reason.value)))
            && (b.status == Active && c.status == Suspended ==>
                  && c.reason.Some? && c.suspendedAt.Some?
                  && (step.LapseAll? || step.WithdrawAll? || step.DriftSuspend? || step.LivenessSuspend?)
                  && c.suspendedAt.value == step.now
                  && (step.DriftSuspend? ==> b.app == step.app && c.reason.value == MATERIAL_CHANGE + step.date + ".")
                  && (step.LivenessSuspend? ==> id == step.id && c.reason.value == NO_RESPONSE + step.detail)
                  && (c.reason.value == LAPSED <==> step.LapseAll?)
                  && (c.reason.value == WITHDRAWN <==> step.WithdrawAll?)
                  && (NO_RESPONSE <= c.reason.value <==> step.LivenessSuspend?))
  {
    ReasonsDiffer();
    match step {
      case DriftSuspend(_, date, _) =>
        assert MATERIAL_CHANGE + date + "." == MATERIAL_CHANGE + (date + ".");
        assert MATERIAL_CHANGE[0] == 'M' && LAPSED[0] == 'T';
      case LivenessSuspend(_, detail, _) =>
        assert (NO_RESPONSE + detail)[4] == 'a' && LAPSED[4] == 's';
      case _ =>
    }
  }

  /**
  Suspension ownership over every interleaving of every sweep's statements, with facts
  and clocks changing freely between them. An expired or revoked badge, and one suspended
  for a lapse, a regression or any sentence of a person's own, is never touched again.
  */
  lemma {:induction false} SettledIsNeverTouched(steps: seq<Step>, t: Table, id: BadgeId)
    requires id in t
    requires
      || t[id].status == Expired || t[id].status == Revoked
      || (t[id].status == Suspended && t[id].reason.Some? && t[id].reason.value != WITHDRAWN && !(NO_RESPONSE <= t[id].reason.value))
    ensures Run(steps, t)[id] == t[id]
  {
    if steps != [] {
      SettledIsNeverTouched(steps[..|steps| - 1], t, id);
      WhoMayChangeWhat(steps[|steps| - 1], id, Run(steps[..|steps| - 1], t)[id]);
    }
  }

  lemma LapseAndRegressionStick(date: string)
    ensures Sticks(LAPSED) && Sticks(MATERIAL_CHANGE + date + ".")
  {
    ReasonsDiffer();
    assert MATERIAL_CHANGE + date + "." == MATERIAL_CHANGE + (date + ".");
  }

  /** Some statement among the first that could have lifted this suspension, given what it read. */
  ghost predicate Lifted(steps: seq<Step>, id: BadgeId, b: Badge) {
    exists i :: 0 <= i < |steps| && Lifts(steps[i], id, b)
  }

  predicate Lifts(step: Step, id: BadgeId, b: Badge) {
    || (step.ReauthoriseAll? && b.reason == Some(WITHDRAWN) && Authorised(step.f, b) && b.expiresAt > step.now)
    || (step.LivenessRestore? && step.id == id && b.reason.Some? && NO_RESPONSE <= b.reason.value)
  }

  /** Those are exactly the statements that change a suspended badge. */
  lemma LiftedExactly(step: Step, id: BadgeId, b: Badge)
    requires b.status == Suspended
    ensures StepOne(step, id, b) != b <==> Lifts(step, id, b)
  {
  }

  /**
  A suspended badge keeps its date and its sentence until something lifts it: a withdrawal
  only by a statement that read it authorised and inside its term, an outage only by the
  liveness sweep. A later cause never overwrites an earlier one.
  */
  lemma {:induction false} FirstReasonStands(steps: seq<Step>, t: Table, id: BadgeId)
    requires id in t && t[id].status == Suspended
    ensures Run(steps, t)[id] == t[id] || Lifted(steps, id, t[id])
  {
    if steps != [] {
      var before, last := steps[..|steps| - 1], steps[|steps| - 1];
      FirstReasonStands(before, t, id);
      if Lifted(before, id, t[id]) {
        var i :| 0 <= i < |before| && Lifts(before[i], id, t[id]);
        assert Lifts(steps[i], id, t[id]);
      } else if Lifts(last, id, t[id]) {
        assert steps[|steps| - 1] == last;
      } else {
        WhoMayChangeWhat(last, id, t[id]);
      }
    }
  }

  // ----- a term that has run out --------------------------------------------

  /** The liveness restore asks nothing about the term; the next lifecycle sweep does. */
  lemma LivenessRestoreIgnoresTheTerm(id: BadgeId, b: Badge, f: Facts, now: Instant)
    requires b.status == Suspended && b.reason.Some? && NO_RESPONSE <= b.reason.value
    ensures var c := StepOne(LivenessRestore(id), id, b);
            && c.status == Active
            && (Expires(c, now) <==> b.expiresAt <= now)
            && (b.expiresAt <= now ==> SweepOne(c, f, now).status == Expired)
  {
  }

  /** No badge reads as active past its date. */
  predicate NoneOverdue(t: Table, now: Instant) {
    forall id | id in t :: !Expires(t[id], now)
  }

  /** Nothing is down for an outage past its date. */
  predicate NoneOverdueAndDown(t: Table, now: Instant) {
    forall id | id in t && t[id].status == Suspended && t[id].reason.Some? && NO_RESPONSE <= t[id].reason.value ::
      t[id].expiresAt > now
  }

  /** No restore by the lifecycle sweep reads a clock earlier than the expiry did. */
  predicate NotBefore(steps: seq<Step>, now: Instant) {
    forall i | 0 <= i < |steps| :: steps[i].ReauthoriseAll? ==> steps[i].now >= now
  }

  /** Whatever the sweeps do next, no badge comes back to active past this date. */
  ghost predicate ExpiryLasts(t: Table, now: Instant) {
    forall steps | NotBefore(steps, now) :: NoneOverdue(Run(steps, t), now)
  }

  lemma {:induction false} NoneOverdueStays(steps: seq<Step>, t: Table, now: Instant)
    requires NotBefore(steps, now) && NoneOverdue(t, now) && NoneOverdueAndDown(t, now)
    ensures NoneOverdue(Run(steps, t), now) && NoneOverdueAndDown(Run(steps, t), now)
  {
    if steps != [] {
      var last, before := steps[|steps| - 1], Run(steps[..|steps| - 1], t);
      NoneOverdueStays(steps[..|steps| - 1], t, now);
      forall id | id in t {
        WhoMayChangeWhat(last, id, before[id]);
      }
    }
  }

  /**
  What the expiry statement took out of force stays out of force, over every interleaving
  of statements that follows, exactly when no badge was down for an outage past its date:
  the expiry passes such a badge by, and the liveness restore brings it back.
  */
  lemma ExpiryLastsIff(t: Table, now: Instant)
    ensures ExpiryLasts(Apply(ExpireAll(now), t), now) <==> NoneOverdueAndDown(t, now)
  {
    var u := Apply(ExpireAll(now), t);
    if NoneOverdueAndDown(t, now) {
      forall steps | NotBefore(steps, now) ensures NoneOverdue(Run(steps, u), now) {
        NoneOverdueStays(steps, u, now);
      }
    } else {
      var id :| id in t && t[id].status == Suspended && t[id].reason.Some? && NO_RESPONSE <= t[id].reason.value
        && t[id].expiresAt <= now;
      var steps := [LivenessRestore(id)];
      assert NotBefore(steps, now) && steps[..0] == [] && Run([], u) == u;
      LivenessRestoreIgnoresTheTerm(id, u[id], Facts(map[], {}, {}), now);
      assert Run(steps, u)[id] == StepOne(steps[0], id, u[id]);
    }
  }
}
