/** How long a badge may last, against the term its rubric publishes. */
module BadgeTerm {
  import opened Calendar

  const VALIDITY_MONTHS: map<string, int> :=
    map["free" := 0, "one_off" := 12, "certified" := 3, "agency" := 3, "organisation" := 3]

  /** What a rubric version publishes as its maximum: a number, or something that is not one. */
  datatype Maximum = NotFinite | Months(months: real)

  type Registry = map<string, Maximum>

  datatype Term = Granted(months: nat) | NoTermForPlan | UnknownRubric | NoUsableMaximum | LongerThanPublished

  function TermWithinPublished(months: nat, published: Maximum): Term {
    if published.NotFinite? || published.months <= 0.0 then NoUsableMaximum
    else if months as real > published.months then LongerThanPublished
    else Granted(months)
  }

  function ValidityMonthsFor(plan: string, rubric: string, registry: Registry): (t: Term)
    ensures t.Granted? <==>
      && plan in VALIDITY_MONTHS && VALIDITY_MONTHS[plan] > 0
      && rubric in registry && registry[rubric].Months?
      && VALIDITY_MONTHS[plan] as real <= registry[rubric].months
    ensures t.Granted? ==> t.months == VALIDITY_MONTHS[plan] && 0 < t.months <= 12
  {
    if plan !in VALIDITY_MONTHS || VALIDITY_MONTHS[plan] <= 0 then NoTermForPlan
    else if rubric !in registry then UnknownRubric
    else TermWithinPublished(VALIDITY_MONTHS[plan], registry[rubric])
  }

  /** Twelve months for a one-off plan, three for the continuous ones, and none for any other. */
  function MonthsSold(plan: string): nat {
    if plan == "one_off" then 12 else if plan == "certified" || plan == "agency" || plan == "organisation" then 3 else 0
  }

  lemma SoldMonths(plan: string)
    ensures MonthsSold(plan) > 0 <==> plan in VALIDITY_MONTHS && VALIDITY_MONTHS[plan] > 0
    ensures MonthsSold(plan) > 0 ==> VALIDITY_MONTHS[plan] == MonthsSold(plan)
  {
  }

  /** Each refusal has its own reason, asked in this order: the plan, the rubric, its maximum, and the plan's months against it. */
  lemma TermOrReason(plan: string, rubric: string, registry: Registry)
    ensures ValidityMonthsFor(plan, rubric, registry) ==
      if MonthsSold(plan) == 0 then NoTermForPlan
      else if rubric !in registry then UnknownRubric
      else if registry[rubric].NotFinite? || registry[rubric].months <= 0.0 then NoUsableMaximum
      else if registry[rubric].months < MonthsSold(plan) as real then LongerThanPublished
      else Granted(MonthsSold(plan))
  {
    SoldMonths(plan);
  }

  /**
  Whatever plan and rubric it was granted for, a term ends after it starts, by 89 to 92
  days on a continuous plan and 365 or 366 on a one-off one, and the table accepts it
  except for a one-off badge issued on 29 February.
  */
  lemma GrantedTerms(plan: string, rubric: string, registry: Registry, issuedAt: int)
    requires ValidityMonthsFor(plan, rubric, registry).Granted?
    ensures var expiresAt := AddMonths(issuedAt, ValidityMonthsFor(plan, rubric, registry).months);
            var days := (expiresAt - issuedAt) / MS_PER_DAY;
            && (expiresAt - issuedAt) % MS_PER_DAY == 0
            && (if plan == "one_off" then days == 365 || days == 366 else 89 <= days <= 92)
            && (ExpiryIsBounded(issuedAt, expiresAt) <==> !(plan == "one_off" && LeapDay(issuedAt)))
  {
    var months := ValidityMonthsFor(plan, rubric, registry).months;
    var n := MonthOf(Day(issuedAt));
    assert months == if plan == "one_off" then 12 else 3;
    TermIsMonthLengths(issuedAt, months);
    TermDays(n);
    WholeDays(Lengths(n, months));
    TermAcceptedIff(issuedAt, months);
  }

  lemma WholeDays(days: int)
    ensures days * MS_PER_DAY / MS_PER_DAY == days && days * MS_PER_DAY % MS_PER_DAY == 0
  {
  }
}
