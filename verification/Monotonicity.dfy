/** More evidence or a stricter policy never rescues a decision, and waivers touch nothing but the decision. */
module Monotonicity {
  import opened DecisionLaws
  import opened Domain
  import opened Evaluation
  import opened Facts
  import opened Inputs
  import opened Normalization
  import opened OrderInvariance
  import opened RequirementLaws
  import opened Seqs
  import opened Sorting
  import opened Universe
  import opened WaiverLaws

  // ---- no rescue ----

  /** The same requirements, each at least as strict. */
  ghost predicate TightenedAll(loose: seq<Requirement>, tight: seq<Requirement>) {
    |tight| == |loose| && forall k :: 0 <= k < |loose| ==> Tightened(loose[k], tight[k])
  }

  /** The same evaluation with more evidence and a policy at least as strict. */
  ghost predicate Harder(loose: Input, tight: Input) {
    && tight.contract == loose.contract && tight.waivers == loose.waivers
    && tight.subject == loose.subject && tight.evaluatedAt == loose.evaluatedAt
    && (forall e :: e in loose.evidence ==> e in tight.evidence)
    && TightenedAll(loose.policy.requirements, tight.policy.requirements)
  }

  /** A requirement settled on both sides fails on both or on neither. */
  lemma SettledOutcomeKept(loose: Requirement, tight: Requirement,
                           evidence: seq<Evidence>, more: seq<Evidence>, at: int)
    requires Tightened(loose, tight) && forall e :: e in evidence ==> e in more && e.outcome.Known()
    requires Passing(loose, evidence, at) || Failing(loose, evidence, at)
    requires Passing(tight, more, at) || Failing(tight, more, at)
    ensures Failing(loose, evidence, at) <==> Failing(tight, more, at)
  {
    var e :| e in evidence && e.evidenceType == loose.evidenceType;
    KnownOutcomes(loose, evidence, at);
    assert Usable(tight, e, at) && e in more;
    if Failing(loose, evidence, at) {
      assert Observed(tight, more, at, Failed);
    } else {
      assert Observed(tight, more, at, Passed);
    }
  }

  lemma RiskKept(loose: Input, tight: Input, k: nat)
    requires Harder(loose, tight) && k < |loose.policy.requirements|
    ensures RiskAccepted(loose.policy.requirements[k], loose) <==> RiskAccepted(tight.policy.requirements[k], tight)
  {
  }

  lemma RequirementsAgree(loose: Input, tight: Input)
    requires Harder(loose, tight) && Settled(loose) && Settled(tight)
    requires forall e :: e in loose.evidence ==> e.outcome.Known()
    ensures forall k :: 0 <= k < |loose.policy.requirements| ==>
      && (Fails(loose.policy.requirements[k], loose) <==> Fails(tight.policy.requirements[k], tight))
      && (RiskAccepted(loose.policy.requirements[k], loose) <==> RiskAccepted(tight.policy.requirements[k], tight))
  {
    var rs, rs' := loose.policy.requirements, tight.policy.requirements;
    forall k | 0 <= k < |rs|
      ensures Fails(rs[k], loose) <==> Fails(rs'[k], tight)
      ensures RiskAccepted(rs[k], loose) <==> RiskAccepted(rs'[k], tight)
    {
      assert rs[k] in rs && rs'[k] in rs';
      SettledOutcomeKept(rs[k], rs'[k], loose.evidence, tight.evidence, loose.evaluatedAt);
      RiskKept(loose, tight, k);
    }
  }

  /** The decision of a settled input, by two questions. */
  lemma SettledDecision(input: Input)
    requires InputOk(input) && Settled(input)
    ensures OutputsOf(input).verdict.decision ==
      if !Any((r: Requirement) => Fails(r, input), input.policy.requirements) then Approved
      else if Any((r: Requirement) => Fails(r, input) && !RiskAccepted(r, input), input.policy.requirements)
      then Rejected
      else AcceptedWithRisk
  {
    DecisionMeaning(input);
    SettledFailures(input);
  }

  lemma SettledMeansDecided(input: Input)
    requires InputOk(input)
    ensures OutputsOf(input).verdict.decision != Blocked <==> Settled(input)
  {
    DecisionMeaning(input);
  }

  /** Two settled inputs, one harder than the other, are decided alike. */
  lemma SettledAlike(loose: Input, tight: Input)
    requires InputOk(loose) && InputOk(tight) && Harder(loose, tight) && Settled(loose) && Settled(tight)
    requires forall e :: e in loose.evidence ==> e.outcome.Known()
    ensures OutputsOf(tight).verdict.decision == OutputsOf(loose).verdict.decision
  {
    RequirementsAgree(loose, tight);
    SettledDecision(loose);
    SettledDecision(tight);
    SameQuestions(loose, tight);
  }

  /**
   No rescue: once decided, adding envelopes, lowering or introducing age
   limits and removing allowed producers can only keep the decision or block it.
   */
  lemma NoRescue(loose: Input, tight: Input)
    requires InputOk(loose) && InputOk(tight) && Harder(loose, tight)
    requires forall e :: e in loose.evidence ==> e.outcome.Known()
    ensures var (d, d') := (OutputsOf(loose).verdict.decision, OutputsOf(tight).verdict.decision);
      d != Blocked ==> d' == d || d' == Blocked
  {
    SettledMeansDecided(loose);
    SettledMeansDecided(tight);
    if Settled(loose) && Settled(tight) {
      SettledAlike(loose, tight);
    }
  }

  /** Pointwise agreement on failing and on accepted risk answers the kernel's questions alike. */
  lemma SameQuestions(a: Input, b: Input)
    requires |a.policy.requirements| == |b.policy.requirements|
    requires forall k :: 0 <= k < |a.policy.requirements| ==>
      && (Fails(a.policy.requirements[k], a) <==> Fails(b.policy.requirements[k], b))
      && (RiskAccepted(a.policy.requirements[k], a) <==> RiskAccepted(b.policy.requirements[k], b))
    ensures Any((r: Requirement) => Fails(r, a), a.policy.requirements)
       <==> Any((r: Requirement) => Fails(r, b), b.policy.requirements)
    ensures Any((r: Requirement) => Fails(r, a) && !RiskAccepted(r, a), a.policy.requirements)
       <==> Any((r: Requirement) => Fails(r, b) && !RiskAccepted(r, b), b.policy.requirements)
  {
    var never := (r: Requirement) => false;
    AnyZipped(never, (r: Requirement) => Fails(r, a), (r: Requirement) => Fails(r, b),
              b.policy.requirements, a.policy.requirements);
    AnyZipped(never, (r: Requirement) => Fails(r, a) && !RiskAccepted(r, a),
              (r: Requirement) => Fails(r, b) && !RiskAccepted(r, b), b.policy.requirements, a.policy.requirements);
  }

  // ---- waiver neutrality ----

  predicate NotWaiver(f: Finding) { !f.category.WaiverCategory? }

  function Bare(input: Input): Input { input.(waivers := []) }

  lemma FactFindingsCategory(f: Fact, requirementId: string, ids: seq<string>)
    ensures forall x :: x in FactFindings(f, requirementId, ids) ==> NotWaiver(x)
  {
    MapMembers(FactFindingFor(f, requirementId), ids);
  }

  lemma RequirementFindingsCategory(r: Requirement, evidence: seq<Evidence>, at: int)
    ensures forall f :: f in RequirementFindings(r, evidence, at) ==> NotWaiver(f)
  {
    var s := SortFacts(r, Matched(r, evidence), at);
    FactFindingsCategory(StaleRevision, r.id, s.revision);
    FactFindingsCategory(StaleFuture, r.id, s.future);
    FactFindingsCategory(StaleAge, r.id, s.age);
    FactFindingsCategory(UntrustedProducer, r.id, s.untrusted);
  }

  lemma UniverseCategory(criteria: seq<Criterion>, requirements: seq<Requirement>)
    ensures forall f :: f in UniverseFindings(criteria, requirements) ==> NotWaiver(f)
  {
    UnknownFindingsFrom(References(criteria), KnownIds(requirements));
    UnreferencedMeaning(References(criteria), requirements);
  }

  lemma BaseFindingsCategory(input: Input)
    ensures forall f :: f in BaseFindings(input) ==> NotWaiver(f)
  {
    UniverseCategory(input.contract.criteria, input.policy.requirements);
    FlatMapMembers(FindingsFor(input.evidence, input.evaluatedAt), input.policy.requirements);
    forall r ensures forall f :: f in FindingsFor(input.evidence, input.evaluatedAt)(r) ==> NotWaiver(f) {
      RequirementFindingsCategory(r, input.evidence, input.evaluatedAt);
    }
  }

  lemma WaiverFindingsCategory(input: Input)
    requires InputOk(input)
    ensures forall f :: f in WaiverPass(input).findings ==> !NotWaiver(f)
  {
    var p := WaiverPass(input);
    BaseResultsUnwaived(input);
    PassMeaning(BaseResults(input), input.waivers, input);
    forall f | f in p.findings ensures !NotWaiver(f) {
      var j :| 0 <= j < |p.findings| && p.findings[j] == f;
      assert ResolvedAt(p, j, input.waivers, BaseResults(input), input);
    }
  }

  /** The findings without the waivers' own are those of the evaluation without waivers, in the same order. */
  lemma FindingsNeutral(input: Input)
    requires InputOk(input)
    ensures Filter(NotWaiver, Findings(input)) == Findings(Bare(input))
  {
    var base, waivers := BaseFindings(input), WaiverPass(input).findings;
    FindingOrder();
    SortFilter(FindingLeq, NotWaiver, base + waivers);
    FilterAppend(NotWaiver, base, waivers);
    BaseFindingsCategory(input);
    FilterAll(NotWaiver, base);
    WaiverFindingsCategory(input);
    FilterNone(NotWaiver, waivers);
    assert base + [] == base;
  }

  lemma BareContext(input: Input)
    requires InputOk(input)
    ensures InputOk(Bare(input)) && BaseResults(Bare(input)) == BaseResults(input)
    ensures forall r :: r in input.policy.requirements ==> !RiskAccepted(r, Bare(input))
    ensures Settled(Bare(input)) <==> Settled(input)
  {
  }

  /**
   Against the same evaluation without waivers: the verdict is the same, each
   requirement differs at most in its waiver status, the other findings are the
   same sequence, and the decision changes at most from REJECTED to
   ACCEPTED_WITH_RISK.
   */
  lemma WaiverNeutrality(input: Input)
    requires InputOk(input)
    ensures var (with, without) := (OutputsOf(input), OutputsOf(Bare(input))); (
      && with.verdict.verdict == without.verdict.verdict
      && |with.requirements| == |without.requirements|
      && (forall k :: 0 <= k < |with.requirements| ==>
            with.requirements[k].(waiverStatus := NotApplicable) == without.requirements[k])
      && Filter(NotWaiver, with.findings) == without.findings
      && (with.verdict.decision != without.verdict.decision ==>
            without.verdict.decision == Rejected && with.verdict.decision == AcceptedWithRisk))
  {
    BareContext(input);
    FindingsNeutral(input);
    RequirementsNeutral(input);
    VerdictsNeutral(input);
  }

  lemma RequirementsNeutral(input: Input)
    requires InputOk(input)
    ensures var (with, without) := (WaiverPass(input).results, WaiverPass(Bare(input)).results); (
      && |with| == |without|
      && forall k :: 0 <= k < |with| ==> with[k].(waiverStatus := NotApplicable) == without[k])
  {
    BareContext(input);
    BaseResultsUnwaived(input);
    var base := BaseResults(input);
    forall k | 0 <= k < |base|
      ensures WaiverPass(input).results[k].(waiverStatus := NotApplicable) == base[k]
    {
      FinalResultAt(input, k);
      assert base[k] in base;
    }
  }

  lemma VerdictsNeutral(input: Input)
    requires InputOk(input)
    ensures var (d, d') := (OutputsOf(input).verdict, OutputsOf(Bare(input)).verdict); (
      && d.verdict == d'.verdict
      && (d.decision != d'.decision ==> d'.decision == Rejected && d.decision == AcceptedWithRisk))
  {
    BareContext(input);
    VerdictMeaning(input);
    VerdictMeaning(Bare(input));
    DecisionMeaning(input);
    DecisionMeaning(Bare(input));
  }
}
