/**
The list a visitor reads: nine questions, each answered from one assessment, and
the rule that a tick is never shown for something nobody looked at.
*/
module Assurance {
  import opened Options

  datatype Area = SEC | PRI | FI | UX | OtherArea(name: nat)
  datatype Criterion = Criterion(area: Area, number: nat)
  datatype Gate = CriticalSecurity | ExposedSecret | OtherGate(name: nat)
  datatype Severity = Critical | High | Medium | Low | Info
  datatype Depth = Limited | Full | Continuous

  datatype Finding = Finding(rule: Criterion, severity: Severity)
  datatype Unreached = Unreached(criterion: Criterion, because: string)
  datatype Declared = Declared(authentication: bool, payments: bool, personalData: bool)

  datatype Input = Input(
    depth: Depth,
    gateFailures: seq<Gate>,
    rubricCriteria: seq<Criterion>,
    notTested: seq<Unreached>,
    findings: seq<Finding>,
    declared: Declared)

  datatype ClaimId =
    | AccountTakeover | OtherPeoplesData | LeakedKeys | Connection | WhatTheyCollect
    | Payments | HostileCode | SomeoneThere | Usable

  datatype Claim = Claim(id: ClaimId, criteria: seq<Criterion>, gate: Option<Gate>)

  const CLAIMS: seq<Claim> := [
    Claim(AccountTakeover, [Criterion(SEC, 3), Criterion(SEC, 5), Criterion(SEC, 7), Criterion(SEC, 9)], Some(CriticalSecurity)),
    Claim(OtherPeoplesData, [Criterion(SEC, 6), Criterion(SEC, 11), Criterion(PRI, 6)], Some(CriticalSecurity)),
    Claim(LeakedKeys, [Criterion(SEC, 4)], Some(ExposedSecret)),
    Claim(Connection, [Criterion(SEC, 1), Criterion(SEC, 2)], None),
    Claim(WhatTheyCollect, [Criterion(PRI, 1), Criterion(PRI, 2), Criterion(PRI, 3), Criterion(PRI, 4), Criterion(PRI, 5)],
          Some(CriticalSecurity)),
    Claim(Payments, [Criterion(SEC, 12)], None),
    Claim(HostileCode, [Criterion(SEC, 13), Criterion(SEC, 10)], None),
    Claim(SomeoneThere, [Criterion(PRI, 7)], None),
    Claim(Usable, [Criterion(FI, 1), Criterion(FI, 3), Criterion(FI, 4), Criterion(UX, 2), Criterion(UX, 3), Criterion(UX, 4),
                   Criterion(UX, 6)], None)]

  predicate Applies(claim: Claim, input: Input) {
    match claim.id
    case AccountTakeover => input.declared.authentication
    case Payments => input.declared.payments
    case _ => true
  }

  datatype OwnReason = NoSignIn | FreeAssessment | NoPayments

  /** A claim's own reason not to have been tested. */
  function OwnReasonOf(claim: Claim, input: Input): Option<OwnReason> {
    match claim.id
    case AccountTakeover =>
      if !input.declared.authentication then Some(NoSignIn)
      else if input.depth == Limited then Some(FreeAssessment)
      else None
    case OtherPeoplesData => if input.depth == Limited then Some(FreeAssessment) else None
    case Payments => if !input.declared.payments then Some(NoPayments) else None
    case _ => None
  }

  // ----- one line -----------------------------------------------------------

  function Unknown(criteria: seq<Criterion>, rubric: seq<Criterion>): seq<Criterion> {
    if criteria == [] then []
    else (if criteria[0] in rubric then [] else [criteria[0]]) + Unknown(criteria[1..], rubric)
  }

  function UnreachedOf(criteria: seq<Criterion>, entries: seq<Unreached>): seq<Unreached> {
    if entries == [] then []
    else (if entries[0].criterion in criteria then [entries[0]] else []) + UnreachedOf(criteria, entries[1..])
  }

  predicate Matching(claim: Claim, finding: Finding) {
    finding.rule in claim.criteria && finding.severity != Info
  }

  function MatchingOf(claim: Claim, findings: seq<Finding>): seq<Finding> {
    if findings == [] then []
    else (if Matching(claim, findings[0]) then [findings[0]] else []) + MatchingOf(claim, findings[1..])
  }

  function Rank(severity: Severity): nat {
    match severity
    case Critical => 0
    case High => 1
    case Medium => 2
    case Low => 3
    case Info => 4
  }

  function Insert(finding: Finding, sorted: seq<Finding>): seq<Finding> {
    if sorted == [] || Rank(finding.severity) <= Rank(sorted[0].severity) then [finding] + sorted
    else [sorted[0]] + Insert(finding, sorted[1..])
  }

  /** Worst first, and in their own order within a severity. */
  function WorstFirst(findings: seq<Finding>): seq<Finding> {
    if findings == [] then [] else Insert(findings[0], WorstFirst(findings[1..]))
  }

  predicate GateFailed(claim: Claim, input: Input) {
    claim.gate.Some? && claim.gate.value in input.gateFailures
  }

  datatype Reason = NoCheck(whole: bool) | NotReached(because: string) | Own(own: OwnReason) | NotApplicable

  datatype Partial = DeclaredAway | GateOnly | CheckForPart | PartNotReached(text: string) | PartOwn(why: OwnReason)

  datatype State = CheckedClear | CheckedFound | NotTested

  datatype Line = Line(
    claim: Claim,
    state: State,
    findings: seq<Finding>,
    notTestedBecause: Option<Reason>,
    gateFailed: bool,
    partialBecause: Option<Partial>)

  function ReasonFor(claim: Claim, input: Input): Option<Reason> {
    var unknown := Unknown(claim.criteria, input.rubricCriteria);
    var unreached := UnreachedOf(claim.criteria, input.notTested);
    if unknown != [] then Some(NoCheck(|unknown| == |claim.criteria|))
    else if unreached != [] then Some(NotReached(unreached[0].because))
    else match OwnReasonOf(claim, input)
         case Some(own) => Some(Own(own))
         case None => None
  }

  function PartialFor(claim: Claim, input: Input): Option<Partial> {
    var unknown := Unknown(claim.criteria, input.rubricCriteria);
    var unreached := UnreachedOf(claim.criteria, input.notTested);
    if !Applies(claim, input) then Some(DeclaredAway)
    else if |unknown| == |claim.criteria| then Some(GateOnly)
    else if unknown != [] then Some(CheckForPart)
    else if unreached != [] then Some(PartNotReached(unreached[0].because))
    else match OwnReasonOf(claim, input)
         case Some(own) => Some(PartOwn(own))
         case None => None
  }

  /** Evidence outranks every reason not to have looked. */
  function LineFor(claim: Claim, input: Input): Line {
    var findings := WorstFirst(MatchingOf(claim, input.findings));
    var gateFailed := GateFailed(claim, input);
    var reason := ReasonFor(claim, input);
    if findings != [] || gateFailed then
      Line(claim, CheckedFound, findings, None, gateFailed, PartialFor(claim, input))
    else if !Applies(claim, input) || reason.Some? then
      Line(claim, NotTested, [], if reason.Some? then reason else Some(NotApplicable), false, None)
    else
      Line(claim, CheckedClear, findings, None, gateFailed, None)
  }

  function AssuranceFor(input: Input): (lines: seq<Line>)
    ensures |lines| == |CLAIMS| && forall k | 0 <= k < |lines| :: lines[k] == LineFor(CLAIMS[k], input)
  {
    seq(|CLAIMS|, k requires 0 <= k < |CLAIMS| => LineFor(CLAIMS[k], input))
  }

  // ----- what the filters keep ----------------------------------------------

  lemma {:induction false} UnknownIff(criteria: seq<Criterion>, rubric: seq<Criterion>)
    ensures Unknown(criteria, rubric) == [] <==> forall c | c in criteria :: c in rubric
    ensures |Unknown(criteria, rubric)| <= |criteria|
    ensures |Unknown(criteria, rubric)| == |criteria| <==> forall c | c in criteria :: c !in rubric
  {
    if criteria != [] {
      UnknownIff(criteria[1..], rubric);
      assert forall c :: c in criteria <==> c == criteria[0] || c in criteria[1..];
    }
  }

  lemma {:induction false} UnreachedIff(criteria: seq<Criterion>, entries: seq<Unreached>)
    ensures UnreachedOf(criteria, entries) == [] <==> forall e | e in entries :: e.criterion !in criteria
  {
    if entries != [] {
      UnreachedIff(criteria, entries[1..]);
      assert forall e :: e in entries <==> e == entries[0] || e in entries[1..];
    }
  }

  lemma {:induction false} MatchingIff(claim: Claim, findings: seq<Finding>)
    ensures forall f :: f in MatchingOf(claim, findings) <==> f in findings && Matching(claim, f)
  {
    if findings != [] {
      MatchingIff(claim, findings[1..]);
      assert forall f :: f in findings <==> f == findings[0] || f in findings[1..];
    }
  }

  // ----- the order findings are shown in ------------------------------------

  predicate Sorted(findings: seq<Finding>) {
    forall i, j | 0 <= i < j < |findings| :: Rank(findings[i].severity) <= Rank(findings[j].severity)
  }

  function OfSeverity(findings: seq<Finding>, severity: Severity): seq<Finding> {
    if findings == [] then []
    else (if findings[0].severity == severity then [findings[0]] else []) + OfSeverity(findings[1..], severity)
  }

  lemma ConsSorted(first: Finding, rest: seq<Finding>)
    requires Sorted(rest) && (rest != [] ==> Rank(first.severity) <= Rank(rest[0].severity))
    ensures Sorted([first] + rest)
  {
    assert forall k | 0 <= k < |rest| :: Rank(rest[0].severity) <= Rank(rest[k].severity);
  }

  lemma {:induction false} InsertSorts(finding: Finding, sorted: seq<Finding>)
    requires Sorted(sorted)
    ensures var r := Insert(finding, sorted);
      Sorted(r) && r != [] && (r[0] == finding || (sorted != [] && r[0] == sorted[0]))
  {
    if sorted == [] || Rank(finding.severity) <= Rank(sorted[0].severity) {
      ConsSorted(finding, sorted);
    } else {
      InsertSorts(finding, sorted[1..]);
      ConsSorted(sorted[0], Insert(finding, sorted[1..]));
    }
  }

  lemma {:induction false} InsertPermutes(finding: Finding, sorted: seq<Finding>)
    ensures multiset(Insert(finding, sorted)) == multiset{finding} + multiset(sorted)
  {
    if !(sorted == [] || Rank(finding.severity) <= Rank(sorted[0].severity)) {
      InsertPermutes(finding, sorted[1..]);
      assert sorted == [sorted[0]] + sorted[1..];
    }
  }

  lemma {:induction false} InsertIsStable(finding: Finding, sorted: seq<Finding>, severity: Severity)
    ensures OfSeverity(Insert(finding, sorted), severity) == OfSeverity([finding] + sorted, severity)
  {
    if !(sorted == [] || Rank(finding.severity) <= Rank(sorted[0].severity)) {
      var r, rest := Insert(finding, sorted), Insert(finding, sorted[1..]);
      InsertIsStable(finding, sorted[1..], severity);
      assert r == [sorted[0]] + rest && r[1..] == rest;
      InsertIntoTail(finding, sorted, severity);
    }
  }

  /** Past a strictly worse head, inserting at the front or behind it is the same within each severity. */
  lemma InsertIntoTail(finding: Finding, sorted: seq<Finding>, severity: Severity)
    requires sorted != [] && Rank(finding.severity) > Rank(sorted[0].severity)
    ensures OfSeverity([finding] + sorted, severity)
         == (if sorted[0].severity == severity then [sorted[0]] else []) + OfSeverity([finding] + sorted[1..], severity)
  {
    assert ([finding] + sorted)[1..] == sorted;
    assert ([finding] + sorted[1..])[1..] == sorted[1..];
  }

  /** Shown findings are those given, worst first, and in the order given within each severity. */
  lemma {:induction false} WorstFirstIsAStableSort(findings: seq<Finding>, severity: Severity)
    ensures var r := WorstFirst(findings);
      && Sorted(r) && multiset(r) == multiset(findings)
      && OfSeverity(r, severity) == OfSeverity(findings, severity)
  {
    if findings != [] {
      WorstFirstIsAStableSort(findings[1..], severity);
      var rest := WorstFirst(findings[1..]);
      InsertSorts(findings[0], rest);
      InsertPermutes(findings[0], rest);
      InsertIsStable(findings[0], rest, severity);
      assert findings == [findings[0]] + findings[1..];
      assert ([findings[0]] + rest)[1..] == rest;
    }
  }

  // ----- what a line says ---------------------------------------------------

  predicate Covered(claim: Claim, input: Input) {
    && (forall c | c in claim.criteria :: c in input.rubricCriteria)
    && (forall e | e in input.notTested :: e.criterion !in claim.criteria)
  }

  predicate SomethingFound(claim: Claim, input: Input) {
    GateFailed(claim, input) || exists f | f in input.findings :: Matching(claim, f)
  }

  lemma FoundIff(claim: Claim, input: Input)
    ensures LineFor(claim, input).state == CheckedFound <==> SomethingFound(claim, input)
  {
    var matching := MatchingOf(claim, input.findings);
    MatchingIff(claim, input.findings);
    WorstFirstIsAStableSort(matching, Info);
    if matching != [] {
      assert matching[0] in matching && matching[0] in multiset(WorstFirst(matching));
    } else {
      assert WorstFirst(matching) == [];
    }
    assert forall f :: f in matching ==> matching != [];
  }

  /**
  No false tick: a line is ticked exactly when its question applies, the rubric has
  every one of its criteria, the run reached every one, it has no reason of its own
  not to have been tested, nothing was found and no gate failed.
  */
  lemma NoFalseTick(claim: Claim, input: Input)
    ensures LineFor(claim, input).state == CheckedClear <==>
      Applies(claim, input) && Covered(claim, input) && OwnReasonOf(claim, input) == None && !SomethingFound(claim, input)
  {
    FoundIff(claim, input);
    UnknownIff(claim.criteria, input.rubricCriteria);
    UnreachedIff(claim.criteria, input.notTested);
  }

  /** The same application and depth, with at least the findings, gates and gaps, and at most the rubric. */
  predicate NoBetter(a: Input, b: Input) {
    && a.depth == b.depth && a.declared == b.declared
    && (forall f | f in a.findings :: f in b.findings)
    && (forall g | g in a.gateFailures :: g in b.gateFailures)
    && (forall e | e in a.notTested :: e in b.notTested)
    && (forall c | c in b.rubricCriteria :: c in a.rubricCriteria)
  }

  /** Bad news only: more findings, gates or gaps, or less rubric, never makes a tick and never hides a finding. */
  lemma BadNewsNeverTicks(claim: Claim, a: Input, b: Input)
    requires NoBetter(a, b)
    ensures LineFor(claim, b).state == CheckedClear ==> LineFor(claim, a).state == CheckedClear
    ensures LineFor(claim, a).state == CheckedFound ==> LineFor(claim, b).state == CheckedFound
    ensures forall f | f in LineFor(claim, a).findings :: f in LineFor(claim, b).findings
  {
    NoFalseTick(claim, a);
    NoFalseTick(claim, b);
    FoundIff(claim, a);
    FoundIff(claim, b);
    ShownAreMatching(claim, a);
    ShownAreMatching(claim, b);
  }

  /** Every matching finding is shown, none other is, worst first and otherwise in the order given. */
  lemma ShownAreMatching(claim: Claim, input: Input)
    ensures var shown := LineFor(claim, input).findings;
      && Sorted(shown) && multiset(shown) == multiset(MatchingOf(claim, input.findings))
      && (forall severity :: OfSeverity(shown, severity) == OfSeverity(MatchingOf(claim, input.findings), severity))
      && (forall f :: f in shown <==> f in input.findings && Matching(claim, f))
  {
    var matching := MatchingOf(claim, input.findings);
    var sorted := WorstFirst(matching);
    MatchingIff(claim, input.findings);
    forall severity ensures OfSeverity(sorted, severity) == OfSeverity(matching, severity) {
      WorstFirstIsAStableSort(matching, severity);
    }
    WorstFirstIsAStableSort(matching, Info);
    forall f ensures f in sorted <==> f in matching {
      assert f in sorted <==> f in multiset(sorted);
      assert f in matching <==> f in multiset(matching);
    }
    assert LineFor(claim, input).findings == sorted;
  }

  lemma ObservationsDoNotMatch(claim: Claim, before: seq<Finding>, note: Finding, after: seq<Finding>)
    requires note.severity == Info
    ensures MatchingOf(claim, before + [note] + after) == MatchingOf(claim, before + after)
  {
    MatchingConcat(claim, before, after);
    MatchingConcat(claim, before, [note] + after);
    assert before + [note] + after == before + ([note] + after);
    assert ([note] + after)[1..] == after;
  }

  lemma LineReadsMatchingOnly(claim: Claim, input: Input, other: seq<Finding>)
    requires MatchingOf(claim, other) == MatchingOf(claim, input.findings)
    ensures LineFor(claim, input.(findings := other)) == LineFor(claim, input)
  {
    var changed := input.(findings := other);
    assert ReasonFor(claim, changed) == ReasonFor(claim, input) && PartialFor(claim, changed) == PartialFor(claim, input);
  }

  /** An observation scores nothing: adding one to the findings, anywhere, leaves every line as it was. */
  lemma ObservationsChangeNothing(claim: Claim, input: Input, before: seq<Finding>, note: Finding, after: seq<Finding>)
    requires input.findings == before + after && note.severity == Info
    ensures LineFor(claim, input.(findings := before + [note] + after)) == LineFor(claim, input)
  {
    ObservationsDoNotMatch(claim, before, note, after);
    LineReadsMatchingOnly(claim, input, before + [note] + after);
  }

  lemma {:induction false} MatchingConcat(claim: Claim, a: seq<Finding>, b: seq<Finding>)
    ensures MatchingOf(claim, a + b) == MatchingOf(claim, a) + MatchingOf(claim, b)
  {
    if a == [] {
      assert a + b == b;
    } else {
      assert (a + b)[1..] == a[1..] + b;
      MatchingConcat(claim, a[1..], b);
    }
  }

  /** A gap in coverage has something to say for itself, whether it stands alone or beside a finding. */
  lemma GapsAreExplained(claim: Claim, input: Input)
    ensures !Covered(claim, input) ==> ReasonFor(claim, input).Some?
    ensures !(Applies(claim, input) && Covered(claim, input)) ==> PartialFor(claim, input).Some?
  {
    UnknownIff(claim.criteria, input.rubricCriteria);
    UnreachedIff(claim.criteria, input.notTested);
  }

  /** Every answer explains itself: a reason exactly when not tested, and a gap in coverage exactly beside a finding. */
  lemma AnswersExplainThemselves(claim: Claim, input: Input)
    ensures var line := LineFor(claim, input);
      && (line.state == NotTested <==> line.notTestedBecause.Some?)
      && (line.state == NotTested ==> line.findings == [] && !line.gateFailed)
      && (line.partialBecause.Some? ==> line.state == CheckedFound)
      && (line.state == CheckedFound && !(Applies(claim, input) && Covered(claim, input)) ==> line.partialBecause.Some?)
  {
    GapsAreExplained(claim, input);
    if !SomethingFound(claim, input) {
      FoundIff(claim, input);
    }
  }

  /** Findings are against the rubric they were scored with. */
  predicate FindingsAreScored(input: Input) {
    forall f | f in input.findings :: f.rule in input.rubricCriteria
  }

  /**
  A line that says all it reports is a failed gate tells the truth exactly when no finding
  beyond an observation is against the claim's criteria; and none is, where findings are
  against the rubric they were scored with.
  */
  lemma GateOnlyIsTrueIff(claim: Claim, input: Input)
    requires LineFor(claim, input).partialBecause == Some(GateOnly)
    ensures LineFor(claim, input).gateFailed && LineFor(claim, input).findings == []
      <==> forall f | f in input.findings :: !Matching(claim, f)
    ensures FindingsAreScored(input) ==> forall f | f in input.findings :: !Matching(claim, f)
  {
    ShownIffMatching(claim, input);
    if FindingsAreScored(input) {
      AllUnknown(claim, input);
    }
  }

  /** A line that says it has only a part, and shows no finding, has the gate to show. */
  lemma ShownIffMatching(claim: Claim, input: Input)
    requires LineFor(claim, input).partialBecause.Some?
    ensures LineFor(claim, input).findings == [] <==> forall f | f in input.findings :: !Matching(claim, f)
    ensures LineFor(claim, input).findings == [] ==> LineFor(claim, input).gateFailed
  {
    ShownAreMatching(claim, input);
    var shown := LineFor(claim, input).findings;
    assert shown != [] ==> shown[0] in shown;
  }

  lemma AllUnknown(claim: Claim, input: Input)
    requires LineFor(claim, input).partialBecause == Some(GateOnly)
    ensures forall c | c in claim.criteria :: c !in input.rubricCriteria
  {
    UnknownIff(claim.criteria, input.rubricCriteria);
  }

  /** The sentence stands over a finding, the gate having held: the rubric scored other criteria only. */
  lemma GateOnlyCanMislead() returns (claim: Claim, input: Input)
    ensures claim in CLAIMS && input.rubricCriteria != [] && !FindingsAreScored(input)
    ensures var line := LineFor(claim, input); line.partialBecause == Some(GateOnly) && !line.gateFailed && line.findings != []
  {
    claim := CLAIMS[2];
    var finding := Finding(Criterion(SEC, 4), High);
    var rubric := [Criterion(UX, 1)];
    input := Input(Full, [], rubric, [], [finding], Declared(true, true, true));
    assert MatchingOf(claim, [finding]) == [finding];
    assert WorstFirst([finding]) == [finding];
    assert Unknown(claim.criteria, rubric) == claim.criteria;
  }

  // ----- the whole list -----------------------------------------------------

  /** No criterion answers two questions. */
  lemma CriteriaAreDisjoint(i: nat, j: nat, c: Criterion)
    requires i < j < |CLAIMS|
    ensures !(c in CLAIMS[i].criteria && c in CLAIMS[j].criteria)
  {
  }

  /** So a finding is shown under at most one of them. */
  lemma NoFindingIsShownTwice(input: Input, i: nat, j: nat, f: Finding)
    requires i < j < |CLAIMS|
    ensures !(f in AssuranceFor(input)[i].findings && f in AssuranceFor(input)[j].findings)
  {
    CriteriaAreDisjoint(i, j, f.rule);
    ShownAreMatching(CLAIMS[i], input);
    ShownAreMatching(CLAIMS[j], input);
  }

  datatype Headline = NoProblemWithAny(tested: nat) | SomeTurnedUp(tested: nat, found: nat)

  function CountIn(lines: seq<Line>, state: State): nat {
    if lines == [] then 0 else (if lines[0].state == state then 1 else 0) + CountIn(lines[1..], state)
  }

  function HeadlineFor(lines: seq<Line>): Headline {
    var tested := |lines| - CountIn(lines, NotTested);
    AllStates(lines);
    if CountIn(lines, CheckedFound) == 0 then NoProblemWithAny(tested) else SomeTurnedUp(tested, CountIn(lines, CheckedFound))
  }

  lemma {:induction false} AllStates(lines: seq<Line>)
    ensures CountIn(lines, CheckedClear) + CountIn(lines, CheckedFound) + CountIn(lines, NotTested) == |lines|
  {
    if lines != [] {
      AllStates(lines[1..]);
    }
  }

  lemma {:induction false} NoneIffNone(lines: seq<Line>, state: State)
    ensures CountIn(lines, state) == 0 <==> forall k | 0 <= k < |lines| :: lines[k].state != state
  {
    if lines != [] {
      NoneIffNone(lines[1..], state);
      assert forall k | 1 <= k < |lines| :: lines[k] == lines[1..][k - 1];
      assert forall k | 0 <= k < |lines[1..]| :: lines[1..][k] == lines[k + 1];
    }
  }

  /**
  The headline says nothing was found exactly when nothing published matches any
  question and no question's gate failed; what it says was tested is the ticks and
  the findings together.
  */
  lemma HeadlineTellsTheTruth(input: Input)
    ensures var lines := AssuranceFor(input);
      && (HeadlineFor(lines).NoProblemWithAny? <==> forall k | 0 <= k < |CLAIMS| :: !SomethingFound(CLAIMS[k], input))
      && HeadlineFor(lines).tested == CountIn(lines, CheckedClear) + CountIn(lines, CheckedFound)
  {
    var lines := AssuranceFor(input);
    AllStates(lines);
    NoneIffNone(lines, CheckedFound);
    forall k | 0 <= k < |CLAIMS| ensures lines[k].state == CheckedFound <==> SomethingFound(CLAIMS[k], input) {
      FoundIff(CLAIMS[k], input);
    }
  }

  // ----- the list, from the input alone -------------------------------------

  /** The nine questions, in order, by the criteria each answers for and the gate it watches. */
  lemma QuestionsAsPublished(c: Criterion)
    ensures |CLAIMS| == 9
    ensures c in CLAIMS[0].criteria <==> c.area == SEC && c.number in {3, 5, 7, 9}
    ensures c in CLAIMS[1].criteria <==> (c.area == SEC && c.number in {6, 11}) || (c.area == PRI && c.number == 6)
    ensures c in CLAIMS[2].criteria <==> c.area == SEC && c.number == 4
    ensures c in CLAIMS[3].criteria <==> c.area == SEC && c.number in {1, 2}
    ensures c in CLAIMS[4].criteria <==> c.area == PRI && 1 <= c.number <= 5
    ensures c in CLAIMS[5].criteria <==> c.area == SEC && c.number == 12
    ensures c in CLAIMS[6].criteria <==> c.area == SEC && c.number in {10, 13}
    ensures c in CLAIMS[7].criteria <==> c.area == PRI && c.number == 7
    ensures c in CLAIMS[8].criteria <==> (c.area == FI && c.number in {1, 3, 4}) || (c.area == UX && c.number in {2, 3, 4, 6})
  {
  }

  /** The gate each question watches, if any: the same for the first, the second and the fifth. */
  predicate GateShut(input: Input, k: nat) {
    || (k in {0, 1, 4} && CriticalSecurity in input.gateFailures)
    || (k == 2 && ExposedSecret in input.gateFailures)
  }

  /** The owner or the kind of assessment rules the question out. */
  predicate RuledOut(input: Input, k: nat) {
    || (k == 0 && (!input.declared.authentication || input.depth == Limited))
    || (k == 1 && input.depth == Limited)
    || (k == 5 && !input.declared.payments)
  }

  /** A finding beyond an observation is against one of the question's criteria. */
  predicate FoundAgainst(input: Input, k: nat)
    requires k < |CLAIMS|
  {
    exists f | f in input.findings :: f.rule in CLAIMS[k].criteria && f.severity != Info
  }

  lemma ShutIff(input: Input, k: nat)
    requires k < |CLAIMS|
    ensures GateFailed(CLAIMS[k], input) <==> GateShut(input, k)
  {
  }

  lemma RuledOutIff(input: Input, k: nat)
    requires k < |CLAIMS|
    ensures !Applies(CLAIMS[k], input) || OwnReasonOf(CLAIMS[k], input).Some? <==> RuledOut(input, k)
  {
  }

  /**
  Each question is ticked exactly when nothing is found against it, its gate is open, its
  criteria are all in the rubric and all reached, and neither the owner nor the depth of
  the assessment rules it out; and shows a problem exactly when something is found or its
  gate is shut, ruled out or not.
  */
  lemma TickedIff(input: Input, k: nat)
    requires k < |CLAIMS|
    ensures var state := AssuranceFor(input)[k].state;
      && (state == CheckedFound <==> FoundAgainst(input, k) || GateShut(input, k))
      && (state == CheckedClear <==>
            && !FoundAgainst(input, k) && !GateShut(input, k) && !RuledOut(input, k)
            && (forall c | c in CLAIMS[k].criteria :: c in input.rubricCriteria)
            && (forall e | e in input.notTested :: e.criterion !in CLAIMS[k].criteria))
  {
    FoundIff(CLAIMS[k], input);
    NoFalseTick(CLAIMS[k], input);
    ShutIff(input, k);
    RuledOutIff(input, k);
    assert SomethingFound(CLAIMS[k], input) <==> FoundAgainst(input, k) || GateShut(input, k);
  }

  /** The first entry of what the run did not reach that is of the question's criteria. */
  predicate IsFirstUnreached(input: Input, k: nat, i: nat)
    requires k < |CLAIMS|
  {
    && i < |input.notTested| && input.notTested[i].criterion in CLAIMS[k].criteria
    && forall j | 0 <= j < i :: input.notTested[j].criterion !in CLAIMS[k].criteria
  }

  lemma {:induction false} FirstUnreached(criteria: seq<Criterion>, entries: seq<Unreached>, i: nat)
    requires i < |entries| && entries[i].criterion in criteria && forall j | 0 <= j < i :: entries[j].criterion !in criteria
    ensures UnreachedOf(criteria, entries) != [] && UnreachedOf(criteria, entries)[0] == entries[i]
  {
    if i > 0 {
      FirstUnreached(criteria, entries[1..], i - 1);
    }
  }

  /**
  A question that is not answered says why: the rubric has none of its criteria, or not all;
  else what the run did not reach, by the first entry; else what rules it out.
  */
  lemma WhyNotTested(input: Input, k: nat, i: nat)
    requires k < |CLAIMS| && AssuranceFor(input)[k].state == NotTested
    ensures var why, claim := AssuranceFor(input)[k].notTestedBecause, CLAIMS[k];
      if exists c | c in claim.criteria :: c !in input.rubricCriteria then
        why == Some(NoCheck(forall c | c in claim.criteria :: c !in input.rubricCriteria))
      else if exists e | e in input.notTested :: e.criterion in claim.criteria then
        IsFirstUnreached(input, k, i) ==> why == Some(NotReached(input.notTested[i].because))
      else if k == 0 && !input.declared.authentication then why == Some(Own(NoSignIn))
      else if k == 5 then why == Some(Own(NoPayments))
      else why == Some(Own(FreeAssessment))
  {
    UnknownIff(CLAIMS[k].criteria, input.rubricCriteria);
    UnreachedIff(CLAIMS[k].criteria, input.notTested);
    RuledOutIff(input, k);
    if IsFirstUnreached(input, k, i) {
      FirstUnreached(CLAIMS[k].criteria, input.notTested, i);
    }
  }

  lemma PartialSays(claim: Claim, input: Input)
    ensures PartialFor(claim, input) ==
      if !Applies(claim, input) then Some(DeclaredAway)
      else if forall c | c in claim.criteria :: c !in input.rubricCriteria then Some(GateOnly)
      else if exists c | c in claim.criteria :: c !in input.rubricCriteria then Some(CheckForPart)
      else if UnreachedOf(claim.criteria, input.notTested) != [] then
        Some(PartNotReached(UnreachedOf(claim.criteria, input.notTested)[0].because))
      else if OwnReasonOf(claim, input).Some? then Some(PartOwn(OwnReasonOf(claim, input).value))
      else None
  {
    UnknownIff(claim.criteria, input.rubricCriteria);
  }

  lemma OwnReasonSays(input: Input, k: nat)
    requires k < |CLAIMS|
    ensures !Applies(CLAIMS[k], input) <==> (k == 0 && !input.declared.authentication) || (k == 5 && !input.declared.payments)
    ensures Applies(CLAIMS[k], input) ==>
      OwnReasonOf(CLAIMS[k], input) == if k in {0, 1} && input.depth == Limited then Some(FreeAssessment) else None
  {
  }

  /** A problem beside a gap says the gap: the owner's word first, then the rubric's, then the run's, then the depth's. */
  lemma WhatIsBeside(input: Input, k: nat, i: nat)
    requires k < |CLAIMS| && AssuranceFor(input)[k].state == CheckedFound
    ensures var beside, claim := AssuranceFor(input)[k].partialBecause, CLAIMS[k];
      if (k == 0 && !input.declared.authentication) || (k == 5 && !input.declared.payments) then beside == Some(DeclaredAway)
      else if forall c | c in claim.criteria :: c !in input.rubricCriteria then beside == Some(GateOnly)
      else if exists c | c in claim.criteria :: c !in input.rubricCriteria then beside == Some(CheckForPart)
      else if exists e | e in input.notTested :: e.criterion in claim.criteria then
        IsFirstUnreached(input, k, i) ==> beside == Some(PartNotReached(input.notTested[i].because))
      else beside == if k in {0, 1} && input.depth == Limited then Some(PartOwn(FreeAssessment)) else None
  {
    var claim := CLAIMS[k];
    assert AssuranceFor(input)[k].partialBecause == PartialFor(claim, input);
    OwnReasonSays(input, k);
    PartialSays(claim, input);
    UnreachedIff(claim.criteria, input.notTested);
    if IsFirstUnreached(input, k, i) {
      FirstUnreached(claim.criteria, input.notTested, i);
    }
  }

  /** Shown worst first: nothing milder stands before anything worse. */
  lemma WorstIsFirst(input: Input, k: nat, i: nat, j: nat)
    requires k < |CLAIMS| && i < j < |AssuranceFor(input)[k].findings|
    ensures var shown := AssuranceFor(input)[k].findings;
      && (shown[j].severity == Critical ==> shown[i].severity == Critical)
      && (shown[j].severity == High ==> shown[i].severity in {Critical, High})
      && (shown[j].severity == Medium ==> shown[i].severity in {Critical, High, Medium})
      && (shown[j].severity == Low ==> shown[i].severity in {Critical, High, Medium, Low})
  {
    ShownAreMatching(CLAIMS[k], input);
    var shown := AssuranceFor(input)[k].findings;
    assert Rank(shown[i].severity) <= Rank(shown[j].severity);
  }

  function Having(lines: seq<Line>, state: State): set<nat> {
    set k: nat | k < |lines| && lines[k].state == state
  }

  lemma {:induction false} CountIsOfLines(lines: seq<Line>, state: State)
    ensures CountIn(lines, state) == |Having(lines, state)|
    decreases |lines|
  {
    if lines != [] {
      var n := |lines| - 1;
      CountIsOfLines(lines[..n], state);
      LastCounts(lines[..n], lines[n], state);
      LastHas(lines[..n], lines[n], state);
      assert lines[..n] + [lines[n]] == lines;
    }
  }

  lemma LastHas(lines: seq<Line>, last: Line, state: State)
    ensures |Having(lines + [last], state)| == |Having(lines, state)| + if last.state == state then 1 else 0
  {
    assert Having(lines + [last], state) == Having(lines, state) + if last.state == state then {|lines|} else {};
  }

  lemma {:induction false} LastCounts(lines: seq<Line>, last: Line, state: State)
    ensures CountIn(lines + [last], state) == CountIn(lines, state) + if last.state == state then 1 else 0
  {
    if lines == [] {
      assert lines + [last] == [last];
    } else {
      assert (lines + [last])[1..] == lines[1..] + [last];
      LastCounts(lines[1..], last, state);
    }
  }

  /** The headline's two numbers: the questions answered either way, and those that showed a problem. */
  lemma HeadlineCounts(input: Input)
    ensures var lines, headline := AssuranceFor(input), HeadlineFor(AssuranceFor(input));
      var found, untested := Having(lines, CheckedFound), Having(lines, NotTested);
      && headline.tested + |untested| == 9
      && (headline.NoProblemWithAny? <==> found == {}) && (headline.SomeTurnedUp? ==> headline.found == |found|)
  {
    var lines := AssuranceFor(input);
    AllStates(lines);
    CountIsOfLines(lines, CheckedFound);
    CountIsOfLines(lines, NotTested);
  }
}
