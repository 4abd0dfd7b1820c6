/** The evaluator: input checks, normalization, cross-check, waivers, sorted findings and the kernel. */
module Evaluation {
  import opened Domain
  import opened Identity
  import opened Inputs
  import opened Kernel
  import opened Normalization
  import opened Seqs
  import opened Sorting
  import opened Text
  import opened Universe
  import opened Waivers

  // ---- input checks ----

  predicate DigestOk(d: Digest) {
    d.algorithm == SHA256 && DigestValue(d.value)
  }

  predicate ContractOk(c: Contract) {
    c.schemaVersion == CONTRACT_SCHEMA && DigestOk(c.digest) && (c.trust.Untrusted? || c.trust.Trusted?)
  }

  predicate PolicyOk(p: Policy) {
    && p.schemaVersion == POLICY_SCHEMA && DigestOk(p.digest)
    && ((p.trust.Untrusted? && p.basis.AdvisoryWorkspace?) || (p.trust.Trusted? && p.basis.TrustedBase?))
  }

  predicate RequirementIdsOk(requirements: seq<Requirement>) {
    && (forall r :: r in requirements ==> CanonicalIdentifier(r.id))
    && (forall i, j :: 0 <= i < j < |requirements| ==> requirements[i].id != requirements[j].id)
  }

  predicate CriteriaOk(criteria: seq<Criterion>) {
    forall c :: c in criteria ==> forall reference :: reference in c.requirements ==> CanonicalIdentifier(reference)
  }

  /** A subject waivers can be matched against: a canonical identity and a resolved head. */
  predicate ResolvedSubject(s: Subject) {
    Canonicalize(s.repositoryUri) == Some(s.repositoryUri) && ObjectId(s.headRevision)
  }

  predicate InputOk(input: Input) {
    && input.evaluatedAt != 0
    && ContractOk(input.contract) && PolicyOk(input.policy)
    && RequirementIdsOk(input.policy.requirements) && CriteriaOk(input.contract.criteria)
    && (input.waivers != [] ==> ResolvedSubject(input.subject))
  }

  method CheckRequirementIds(requirements: seq<Requirement>) returns (ok: bool)
    ensures ok <==> RequirementIdsOk(requirements)
  {
    var seen: set<string> := {};
    for i := 0 to |requirements|
      invariant RequirementIdsOk(requirements[..i])
      invariant seen == set r | r in requirements[..i] :: r.id
    {
      assert requirements[i] in requirements;
      assert requirements[..i + 1] == requirements[..i] + [requirements[i]];
      if !CanonicalIdentifier(requirements[i].id) {
        return false;
      }
      if requirements[i].id in seen {
        return false;
      }
      seen := seen + {requirements[i].id};
    }
    assert requirements[..|requirements|] == requirements;
    ok := true;
  }

  method CheckCriteria(criteria: seq<Criterion>) returns (ok: bool)
    ensures ok <==> CriteriaOk(criteria)
  {
    for i := 0 to |criteria|
      invariant CriteriaOk(criteria[..i])
    {
      var references := criteria[i].requirements;
      assert criteria[i] in criteria;
      for j := 0 to |references|
        invariant forall reference :: reference in references[..j] ==> CanonicalIdentifier(reference)
      {
        assert references[j] in criteria[i].requirements;
        if !CanonicalIdentifier(references[j]) {
          return false;
        }
      }
      assert references[..|references|] == references;
    }
    assert criteria[..|criteria|] == criteria;
    ok := true;
  }

  method ValidateInput(input: Input) returns (ok: bool)
    ensures ok <==> InputOk(input)
  {
    if input.evaluatedAt == 0 || !ContractOk(input.contract) || !PolicyOk(input.policy) {
      return false;
    }
    var idsOk := CheckRequirementIds(input.policy.requirements);
    if !idsOk {
      return false;
    }
    var criteriaOk := CheckCriteria(input.contract.criteria);
    if !criteriaOk {
      return false;
    }
    ok := |input.waivers| > 0 ==> ResolvedSubject(input.subject);
  }

  // ---- findings in order ----

  function JoinedEvidence(f: Finding): string {
    Join(f.evidenceIds, ",")
  }

  /** By code, then requirement id, then joined evidence ids. */
  predicate FindingLeq(f: Finding, g: Finding) {
    if f.code != g.code then StringLeq(f.code, g.code)
    else if f.requirementId != g.requirementId then StringLeq(f.requirementId, g.requirementId)
    else StringLeq(JoinedEvidence(f), JoinedEvidence(g))
  }

  function SortFindings(findings: seq<Finding>): seq<Finding> {
    StableSort(FindingLeq, findings)
  }

  // ---- the whole evaluation ----

  datatype Outputs = Outputs(
    requirements: seq<RequirementResult>,
    findings: seq<Finding>,
    waivers: seq<Waiver>,
    verdict: EvaluationResult)

  datatype Refusal = InvalidInput | KernelRejected(fault: Fault)

  function ResultFor(evidence: seq<Evidence>, at: int): Requirement -> RequirementResult {
    (r: Requirement) => RequirementResultOf(r, evidence, at)
  }

  /** The normalized results, in policy order, before waivers. */
  function BaseResults(input: Input): seq<RequirementResult> {
    Map(ResultFor(input.evidence, input.evaluatedAt), input.policy.requirements)
  }

  function FindingsFor(evidence: seq<Evidence>, at: int): Requirement -> seq<Finding> {
    (r: Requirement) => RequirementFindings(r, evidence, at)
  }

  /** The evidence findings of all requirements, in policy order. */
  function EvidenceFindings(requirements: seq<Requirement>, evidence: seq<Evidence>, at: int): seq<Finding> {
    FlatMap(FindingsFor(evidence, at), requirements)
  }

  /** Findings that no waiver produces. */
  function BaseFindings(input: Input): seq<Finding> {
    UniverseFindings(input.contract.criteria, input.policy.requirements)
    + EvidenceFindings(input.policy.requirements, input.evidence, input.evaluatedAt)
  }

  function WaiverPass(input: Input): Pass {
    ApplyAll(BaseResults(input), input.waivers, input)
  }

  function Findings(input: Input): seq<Finding> {
    SortFindings(BaseFindings(input) + WaiverPass(input).findings)
  }

  /** What an evaluation that meets no refusal returns. */
  function OutputsOf(input: Input): Outputs {
    Outputs(WaiverPass(input).results, Findings(input), WaiverPass(input).resolved,
            Judge(WaiverPass(input).results, Findings(input)))
  }

  predicate KernelAccepts(input: Input) {
    Accepts(WaiverPass(input).results, Findings(input))
  }

  method EvaluateRequirements(requirements: seq<Requirement>, evidence: seq<Evidence>, at: int)
    returns (results: seq<RequirementResult>, findings: seq<Finding>)
    ensures results == Map(ResultFor(evidence, at), requirements)
    ensures findings == EvidenceFindings(requirements, evidence, at)
  {
    results, findings := [], [];
    for i := 0 to |requirements|
      invariant results == Map(ResultFor(evidence, at), requirements[..i])
      invariant findings == EvidenceFindings(requirements[..i], evidence, at)
    {
      MapSnoc(ResultFor(evidence, at), requirements, i);
      FlatMapSnoc(FindingsFor(evidence, at), requirements, i);
      var result, more := EvaluateRequirement(requirements[i], evidence, at);
      results := results + [result];
      findings := findings + more;
    }
    assert requirements[..|requirements|] == requirements;
  }

  method Evaluate(input: Input) returns (r: Result<Outputs, Refusal>)
    ensures r.Ok? <==> InputOk(input) && KernelAccepts(input)
    ensures r.Ok? ==> r.value == OutputsOf(input)
    ensures r.Err? ==> (r.error == InvalidInput <==> !InputOk(input))
    ensures r.Err? && r.error.KernelRejected? ==>
      FirstFault(WaiverPass(input).results, Findings(input), r.error.fault)
  {
    var ok := ValidateInput(input);
    if !ok {
      return Err(InvalidInput);
    }
    var requirements, requirementFindings :=
      EvaluateRequirements(input.policy.requirements, input.evidence, input.evaluatedAt);
    var findings := CollectUniverseFindings(input.contract.criteria, input.policy.requirements);
    findings := findings + requirementFindings;
    var results, resolved, waiverFindings := ApplyWaivers(requirements, input.waivers, input);
    assert Pass(results, resolved, waiverFindings) == WaiverPass(input);
    findings := SortFindings(findings + waiverFindings);
    var verdict, fault := Kernel.Evaluate(results, findings);
    if fault.Some? {
      return Err(KernelRejected(fault.value));
    }
    r := Ok(Outputs(results, findings, resolved, verdict));
  }
}
