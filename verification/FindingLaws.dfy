/** Which findings an evaluation reports, what each one says, and in which order, on the input's own fields. */
module FindingLaws {
  import opened DecisionLaws
  import opened Domain
  import opened Evaluation
  import opened Facts
  import opened Inputs
  import opened Normalization
  import opened OrderInvariance
  import opened RequirementLaws
  import opened Seqs
  import opened SortedIds
  import opened Sorting
  import opened Text
  import opened Universe
  import opened WaiverLaws
  import opened Waivers

  // ---- evidence findings ----

  /** Nothing matches the requirement. */
  predicate ReportsMissing(x: Finding, r: Requirement, evidence: seq<Evidence>) {
    && (forall e :: e in evidence ==> e.evidenceType != r.evidenceType)
    && x == Finding("EVIDENCE_MISSING", EvidenceCategory, Error, r.id, [],
                    Message("matched no evidence envelope of type", [r.id, r.evidenceType]), true)
  }

  /** The code under which an envelope is reported, by what is wrong with it. */
  predicate ReportedAs(code: string, r: Requirement, e: Evidence, at: int) {
    || (code == "EVIDENCE_STALE_REVISION" && HasFact(r, e, at, StaleRevision))
    || (code == "EVIDENCE_STALE_FUTURE" && HasFact(r, e, at, StaleFuture))
    || (code == "EVIDENCE_STALE_AGE" && HasFact(r, e, at, StaleAge))
    || (code == "EVIDENCE_UNTRUSTED_PRODUCER" && HasFact(r, e, at, UntrustedProducer))
  }

  predicate ReportsFact(x: Finding, r: Requirement, e: Evidence, at: int) {
    && e.evidenceType == r.evidenceType && ReportedAs(x.code, r, e, at)
    && x.category == EvidenceCategory && x.severity == Error && x.blocking
    && x.requirementId == r.id && x.evidenceIds == [e.id] && x.message == Message(x.code, [r.id, e.id])
  }

  predicate SaysConflict(x: Finding, r: Requirement) {
    && x.code == "EVIDENCE_CONFLICT" && x.category == EvidenceCategory && x.severity == Error && x.blocking
    && x.requirementId == r.id
    && x.message == Message("has conflicting candidate outcomes across evidence", [r.id] + x.evidenceIds)
  }

  /** The candidates both passed and failed; the finding names them all. */
  ghost predicate ReportsConflict(x: Finding, r: Requirement, evidence: seq<Evidence>, at: int) {
    && Observed(r, evidence, at, Passed) && Observed(r, evidence, at, Failed)
    && SaysConflict(x, r) && ListsCandidates(x.evidenceIds, r, evidence, at)
  }

  lemma FactFindingMembers(r: Requirement, evidence: seq<Evidence>, at: int, f: Fact, x: Finding)
    ensures x in FactFindings(f, r.id, FactIds(r, Matched(r, evidence), at, f)) <==>
      exists id :: NamedBy(r, evidence, at, f, id) && x == FactFinding(f, r.id, id)
  {
    MapMembers(FactFindingFor(f, r.id), FactIds(r, Matched(r, evidence), at, f));
    FactIdMembers(r, evidence, at, f);
  }

  /** The envelope is reported for this one fact. */
  predicate ReportsOne(x: Finding, r: Requirement, e: Evidence, at: int, f: Fact, code: string) {
    && e.evidenceType == r.evidenceType && HasFact(r, e, at, f)
    && x == Finding(code, EvidenceCategory, Error, r.id, [e.id], Message(code, [r.id, e.id]), true)
  }

  lemma OneFact(r: Requirement, evidence: seq<Evidence>, at: int, f: Fact, code: string, x: Finding)
    requires code == match f
                     case StaleRevision => "EVIDENCE_STALE_REVISION"
                     case StaleFuture => "EVIDENCE_STALE_FUTURE"
                     case StaleAge => "EVIDENCE_STALE_AGE"
                     case _ => "EVIDENCE_UNTRUSTED_PRODUCER"
    ensures x in FactFindings(f, r.id, FactIds(r, Matched(r, evidence), at, f)) <==>
      exists e :: e in evidence && ReportsOne(x, r, e, at, f, code)
  {
    FactFindingMembers(r, evidence, at, f, x);
    if e :| e in evidence && ReportsOne(x, r, e, at, f, code) {
      assert NamedBy(r, evidence, at, f, e.id) && x == FactFinding(f, r.id, e.id);
    }
  }

  lemma ReportsEither(x: Finding, r: Requirement, e: Evidence, at: int)
    ensures ReportsFact(x, r, e, at) <==>
      || ReportsOne(x, r, e, at, StaleRevision, "EVIDENCE_STALE_REVISION")
      || ReportsOne(x, r, e, at, StaleFuture, "EVIDENCE_STALE_FUTURE")
      || ReportsOne(x, r, e, at, StaleAge, "EVIDENCE_STALE_AGE")
      || ReportsOne(x, r, e, at, UntrustedProducer, "EVIDENCE_UNTRUSTED_PRODUCER")
  {
  }

  lemma FactsReported(r: Requirement, evidence: seq<Evidence>, at: int, x: Finding)
    ensures x in StaleAndUntrustedFindings(r, SortFacts(r, Matched(r, evidence), at)) <==>
      exists e :: e in evidence && ReportsFact(x, r, e, at)
  {
    OneFact(r, evidence, at, StaleRevision, "EVIDENCE_STALE_REVISION", x);
    OneFact(r, evidence, at, StaleFuture, "EVIDENCE_STALE_FUTURE", x);
    OneFact(r, evidence, at, StaleAge, "EVIDENCE_STALE_AGE", x);
    OneFact(r, evidence, at, UntrustedProducer, "EVIDENCE_UNTRUSTED_PRODUCER", x);
    forall e ensures ReportsFact(x, r, e, at) <==>
      || ReportsOne(x, r, e, at, StaleRevision, "EVIDENCE_STALE_REVISION")
      || ReportsOne(x, r, e, at, StaleFuture, "EVIDENCE_STALE_FUTURE")
      || ReportsOne(x, r, e, at, StaleAge, "EVIDENCE_STALE_AGE")
      || ReportsOne(x, r, e, at, UntrustedProducer, "EVIDENCE_UNTRUSTED_PRODUCER")
    {
      ReportsEither(x, r, e, at);
    }
  }

  lemma ConflictOfLists(r: Requirement, s: FactLists, x: Finding)
    ensures x in ConflictFindings(r, s) <==> (
      && s.candidates != [] && Failed in s.outcomes && Passed in s.outcomes
      && x == Finding("EVIDENCE_CONFLICT", EvidenceCategory, Error, r.id, SortedSet(s.candidates),
                      Message("has conflicting candidate outcomes across evidence", [r.id] + SortedSet(s.candidates)),
                      true))
  {
  }

  /** `ids` lists the candidates, strictly increasing. */
  ghost predicate ListsCandidates(ids: seq<string>, r: Requirement, evidence: seq<Evidence>, at: int) {
    StrictlyIncreasing(ids) && forall id :: id in ids <==> NamedBy(r, evidence, at, Candidate, id)
  }

  lemma CandidateIds(r: Requirement, evidence: seq<Evidence>, at: int, ids: seq<string>)
    ensures ids == SortedSet(FactIds(r, Matched(r, evidence), at, Candidate)) <==> ListsCandidates(ids, r, evidence, at)
  {
    var candidates := FactIds(r, Matched(r, evidence), at, Candidate);
    FactIdMembers(r, evidence, at, Candidate);
    SortedSetMeaning(candidates);
    if ListsCandidates(ids, r, evidence, at) {
      IncreasingDetermined(ids, SortedSet(candidates));
    }
  }

  lemma ConflictObserved(r: Requirement, evidence: seq<Evidence>, at: int, x: Finding)
    requires Matched(r, evidence) != []
    ensures x in ConflictFindings(r, SortFacts(r, Matched(r, evidence), at)) <==> (
      && Observed(r, evidence, at, Passed) && Observed(r, evidence, at, Failed)
      && SaysConflict(x, r) && x.evidenceIds == SortedSet(FactIds(r, Matched(r, evidence), at, Candidate)))
  {
    ConflictOfLists(r, SortFacts(r, Matched(r, evidence), at), x);
    OutcomeMembers(r, evidence, at, Passed);
    OutcomeMembers(r, evidence, at, Failed);
    ObservedIsListed(r, evidence, at, Passed);
  }

  lemma ConflictReported(r: Requirement, evidence: seq<Evidence>, at: int, x: Finding)
    requires Matched(r, evidence) != []
    ensures x in ConflictFindings(r, SortFacts(r, Matched(r, evidence), at)) <==> ReportsConflict(x, r, evidence, at)
  {
    ConflictObserved(r, evidence, at, x);
    CandidateIds(r, evidence, at, x.evidenceIds);
  }

  /** The findings of a requirement, field by field: which there are, and what each says. */
  lemma EvidenceTable(r: Requirement, evidence: seq<Evidence>, at: int, x: Finding)
    ensures x in RequirementFindings(r, evidence, at) <==>
      || ReportsMissing(x, r, evidence)
      || (exists e :: e in evidence && ReportsFact(x, r, e, at))
      || ReportsConflict(x, r, evidence, at)
  {
    MatchedMeaning(r, evidence, at);
    if Matched(r, evidence) != [] {
      FactsReported(r, evidence, at, x);
      ConflictReported(r, evidence, at, x);
    }
  }

  // ---- waiver records ----

  /** The record is aimed at a waivable requirement whose candidates fail. */
  predicate Aimed(w: Waiver, input: Input) {
    exists r :: r in input.policy.requirements && r.id == w.targetId && r.waivable
      && CandidateFailure(r, input.evidence, input.evaluatedAt)
  }

  /** The record, taken alone, accepts the risk of its target's failure. */
  predicate Effective(w: Waiver, input: Input) {
    Aimed(w, input) && InScope(w, input) && Current(w, input.evaluatedAt)
  }

  /** An earlier record already accepts the risk of the same target. */
  predicate Anticipated(j: nat, input: Input)
    requires j < |input.waivers|
  {
    exists i :: 0 <= i < j && input.waivers[i].targetId == input.waivers[j].targetId
      && Effective(input.waivers[i], input)
  }

  /** The code of a record: its target is judged first, then its scope, then its dates, then its precedence. */
  function CodeChosen(w: Waiver, aimed: bool, anticipated: bool, input: Input): string {
    if !aimed then "WAIVER_REJECTED_TARGET"
    else if !InScope(w, input) then "WAIVER_REJECTED_SCOPE"
    else if w.issuedAt.instant.None? || w.expiresAt.instant.None? then "WAIVER_REJECTED_TIMING"
    else if w.expiresAt.instant.value <= input.evaluatedAt then "WAIVER_REJECTED_EXPIRED"
    else if input.evaluatedAt < w.issuedAt.instant.value then "WAIVER_REJECTED_TIMING"
    else if anticipated then "WAIVER_SUPERSEDED"
    else "WAIVER_APPLIED"
  }

  function ReportedCode(j: nat, input: Input): string
    requires j < |input.waivers|
  {
    CodeChosen(input.waivers[j], Aimed(input.waivers[j], input), Anticipated(j, input), input)
  }

  predicate Applies(j: nat, input: Input)
    requires j < |input.waivers|
  {
    Effective(input.waivers[j], input) && !Anticipated(j, input)
  }

  function AimsAtResult(w: Waiver): RequirementResult -> bool {
    (b: RequirementResult) => b.requirementId == w.targetId && WaivableFailure(b)
  }

  function AimsAt(w: Waiver, input: Input): Requirement -> bool {
    (r: Requirement) => r.id == w.targetId && r.waivable && CandidateFailure(r, input.evidence, input.evaluatedAt)
  }

  lemma AimsAlike(w: Waiver, input: Input, k: nat)
    requires k < |input.policy.requirements|
    ensures AimsAtResult(w)(BaseResults(input)[k]) <==> AimsAt(w, input)(input.policy.requirements[k])
  {
    ResultOutcome(input.policy.requirements[k], input.evidence, input.evaluatedAt);
  }

  lemma AimedMeaning(w: Waiver, input: Input)
    ensures TargetsWaivableFailure(w, BaseResults(input)) <==> Aimed(w, input)
  {
    var rs, base := input.policy.requirements, BaseResults(input);
    var never := (r: Requirement) => false;
    forall k | 0 <= k < |rs| ensures never(rs[k]) || AimsAtResult(w)(base[k]) <==> AimsAt(w, input)(rs[k]) {
      AimsAlike(w, input, k);
    }
    AnyZipped(never, AimsAtResult(w), AimsAt(w, input), rs, base);
    assert TargetsWaivableFailure(w, base) <==> Any(AimsAtResult(w), base);
    assert Aimed(w, input) <==> Any(AimsAt(w, input), rs);
  }

  lemma ScopeMeaning(w: Waiver, input: Input)
    ensures ScopeMatches(w, input) <==> InScope(w, input)
    ensures InForce(w, input.evaluatedAt) <==> Current(w, input.evaluatedAt)
  {
  }

  lemma CoversSome(w: Waiver, base: seq<RequirementResult>, input: Input)
    ensures Applicable(w, base, input) <==>
      TargetsWaivableFailure(w, base) && ScopeMatches(w, input) && InForce(w, input.evaluatedAt)
  {
  }

  lemma EffectiveMeaning(w: Waiver, input: Input)
    ensures Applicable(w, BaseResults(input), input) <==> Effective(w, input)
  {
    CoversSome(w, BaseResults(input), input);
    AimedMeaning(w, input);
    ScopeMeaning(w, input);
  }

  lemma AnticipatedMeaning(input: Input, j: nat)
    requires j < |input.waivers|
    ensures Preempted(input.waivers, j, BaseResults(input), input) <==> Anticipated(j, input)
  {
    forall i | 0 <= i < j
      ensures Applicable(input.waivers[i], BaseResults(input), input) <==> Effective(input.waivers[i], input)
    {
      EffectiveMeaning(input.waivers[i], input);
    }
  }

  /** How a record resolves, by whether it is aimed at a waivable failure and whether it is anticipated. */
  function Chosen(w: Waiver, aimed: bool, anticipated: bool, input: Input): Resolution {
    if aimed && ScopeMatches(w, input) && InForce(w, input.evaluatedAt) then if anticipated then Superseded else Apply
    else Rejection(w, aimed, input)
  }

  lemma ChosenCode(w: Waiver, aimed: bool, anticipated: bool, input: Input)
    ensures CodeOf(Chosen(w, aimed, anticipated, input)) == CodeChosen(w, aimed, anticipated, input)
    ensures Chosen(w, aimed, anticipated, input).Apply? <==>
      aimed && InScope(w, input) && Current(w, input.evaluatedAt) && !anticipated
    ensures Chosen(w, aimed, anticipated, input).Apply? || Chosen(w, aimed, anticipated, input).Superseded? <==>
      aimed && InScope(w, input) && Current(w, input.evaluatedAt)
  {
  }

  lemma ResolutionChosen(input: Input, j: nat)
    requires j < |input.waivers|
    ensures ResolutionOf(input.waivers, j, BaseResults(input), input)
         == Chosen(input.waivers[j], Aimed(input.waivers[j], input), Anticipated(j, input), input)
  {
    CoversSome(input.waivers[j], BaseResults(input), input);
    AimedMeaning(input.waivers[j], input);
    AnticipatedMeaning(input, j);
  }

  /** What becomes of record `j`: its status, and its finding, field by field. */
  lemma WaiverTable(input: Input, j: nat)
    requires InputOk(input) && j < |input.waivers|
    ensures var (p, w) := (WaiverPass(input), input.waivers[j]); (
      && |p.resolved| == |p.findings| == |input.waivers|
      && p.resolved[j] == w.(status := if Applies(j, input) then WaiverValid else WaiverInvalid)
      && p.findings[j] ==
           Finding(ReportedCode(j, input), WaiverCategory, if Effective(w, input) then Info else Warning, w.targetId,
                   [], Message(ReportedCode(j, input), [w.id, w.targetId]), false))
  {
    BaseResultsUnwaived(input);
    PassMeaning(BaseResults(input), input.waivers, input);
    assert ResolvedAt(WaiverPass(input), j, input.waivers, BaseResults(input), input);
    ResolutionChosen(input, j);
    ChosenCode(input.waivers[j], Aimed(input.waivers[j], input), Anticipated(j, input), input);
  }

  /** A final result is VALID-waived exactly when its candidates fail and some record accepts the risk. */
  lemma StatusTable(input: Input, k: nat)
    requires InputOk(input) && k < |input.policy.requirements|
    ensures var r := input.policy.requirements[k];
      WaiverPass(input).results[k]
      == RequirementResultOf(r, input.evidence, input.evaluatedAt).(
           waiverStatus := if CandidateFailure(r, input.evidence, input.evaluatedAt) && RiskAccepted(r, input)
                           then WaiverValid else NotApplicable)
  {
    var r := input.policy.requirements[k];
    FinalResultAt(input, k);
    FinalResultMeaning(input, k);
    ResultOutcome(r, input.evidence, input.evaluatedAt);
  }

  // ---- records that accept nothing ----

  lemma DroppedCovers(r: RequirementResult, input: Input, j: nat)
    requires j < |input.waivers| && !Covers(input.waivers[j], r, input)
    ensures WithStatus(r, Without(input.waivers, j), input) == WithStatus(r, input.waivers, input)
  {
    var ws, rest := input.waivers, Without(input.waivers, j);
    assert forall w :: w in rest ==> w in ws;
    if w :| w in ws && Covers(w, r, input) {
      var i :| 0 <= i < |ws| && ws[i] == w;
      assert i < j ==> rest[i] == w;
      assert i > j ==> rest[i - 1] == w;
    }
  }

  lemma DroppedInputOk(input: Input, j: nat)
    requires InputOk(input) && j < |input.waivers|
    ensures InputOk(input.(waivers := Without(input.waivers, j)))
    ensures BaseResults(input.(waivers := Without(input.waivers, j))) == BaseResults(input)
  {
  }

  /** A record that accepts no risk leaves no trace in the requirements when it is dropped. */
  lemma IneffectiveDropped(input: Input, j: nat)
    requires InputOk(input) && j < |input.waivers| && !Effective(input.waivers[j], input)
    ensures OutputsOf(input.(waivers := Without(input.waivers, j))).requirements == OutputsOf(input).requirements
  {
    var base, rest := BaseResults(input), Without(input.waivers, j);
    EffectiveMeaning(input.waivers[j], input);
    BaseResultsUnwaived(input);
    DroppedInputOk(input, j);
    PassMeaning(base, input.waivers, input);
    PassMeaning(base, rest, input);
    forall k | 0 <= k < |base|
      ensures WithStatuses(base, rest, input)[k] == WithStatuses(base, input.waivers, input)[k]
    {
      assert base[k] in base;
      DroppedCovers(base[k], input, j);
    }
    ApplyAllContext(base, rest, input, input.(waivers := rest));
  }

  /** A record scoped to another repository, work unit or head accepts no risk, whatever its dates. */
  lemma MisscopedRejected(input: Input, j: nat)
    requires InputOk(input) && j < |input.waivers| && Aimed(input.waivers[j], input)
    ensures var w := input.waivers[j];
      |WaiverPass(input).findings| == |input.waivers|
      && (WaiverPass(input).findings[j].code == "WAIVER_REJECTED_SCOPE" <==>
            || w.scopeRepository != input.subject.repositoryUri
            || w.scopeWorkUnit != input.contract.workUnit.id
            || (w.scopeHead != "" && w.scopeHead != input.subject.headRevision))
  {
    WaiverTable(input, j);
    ScopeCode(input.waivers[j], Anticipated(j, input), input);
  }

  lemma ScopeCode(w: Waiver, anticipated: bool, input: Input)
    ensures CodeChosen(w, true, anticipated, input) == "WAIVER_REJECTED_SCOPE" <==> !InScope(w, input)
  {
    assert |"WAIVER_REJECTED_SCOPE"| == 21 && |"WAIVER_REJECTED_TIMING"| == 22 && |"WAIVER_REJECTED_EXPIRED"| == 23;
    assert |"WAIVER_SUPERSEDED"| == 17 && |"WAIVER_APPLIED"| == 14;
  }

  // ---- the list of findings ----

  /** Every finding of an evaluation is one of the three kinds, as often as it was raised. */
  lemma FindingsGathered(input: Input)
    ensures Permuted(UniverseFindings(input.contract.criteria, input.policy.requirements)
                     + EvidenceFindings(input.policy.requirements, input.evidence, input.evaluatedAt)
                     + WaiverPass(input).findings,
                     OutputsOf(input).findings)
  {
    SortPermutes(FindingLeq, BaseFindings(input) + WaiverPass(input).findings);
  }

  lemma EvidenceGathered(requirements: seq<Requirement>, evidence: seq<Evidence>, at: int, x: Finding)
    ensures x in EvidenceFindings(requirements, evidence, at) <==>
      exists r :: r in requirements && x in RequirementFindings(r, evidence, at)
  {
    FlatMapMembers(FindingsFor(evidence, at), requirements);
    forall r ensures x in FindingsFor(evidence, at)(r) <==> x in RequirementFindings(r, evidence, at) {
    }
  }

  /** `f` may stand before `g`: by code, then requirement id, then the evidence ids joined by commas. */
  predicate Precedes(f: Finding, g: Finding) {
    || StringLess(f.code, g.code)
    || (f.code == g.code && StringLess(f.requirementId, g.requirementId))
    || (f.code == g.code && f.requirementId == g.requirementId
        && StringLeq(Join(f.evidenceIds, ","), Join(g.evidenceIds, ",")))
  }

  lemma LeqPrecedes(f: Finding, g: Finding)
    ensures FindingLeq(f, g) <==> Precedes(f, g)
  {
    StringLeqTotal(f.code, g.code);
    StringLeqTotal(f.requirementId, g.requirementId);
  }

  /** Findings are listed by code, then requirement id, then evidence ids, in byte order. */
  lemma FindingsOrdered(input: Input, i: nat, j: nat)
    requires i < j < |OutputsOf(input).findings|
    ensures Precedes(OutputsOf(input).findings[i], OutputsOf(input).findings[j])
  {
    FindingOrder();
    SortSorts(FindingLeq, BaseFindings(input) + WaiverPass(input).findings);
    LeqPrecedes(OutputsOf(input).findings[i], OutputsOf(input).findings[j]);
  }
}
