/** When the kernel accepts what normalization hands it. */
module Totality {
  import opened DecisionLaws
  import opened Domain
  import opened Evaluation
  import opened Facts
  import opened Inputs
  import opened Kernel
  import opened Normalization
  import opened RequirementLaws
  import opened Seqs
  import opened SortedIds
  import opened Sorting
  import opened Text
  import opened Universe
  import opened WaiverLaws
  import opened Waivers

  /** Every envelope the requirement matches has a canonical id. */
  predicate MatchedIdsOk(r: Requirement, evidence: seq<Evidence>) {
    forall e :: e in evidence && e.evidenceType == r.evidenceType ==> CanonicalIdentifier(e.id)
  }

  predicate AllCanonical(ids: seq<string>) {
    forall id :: id in ids ==> CanonicalIdentifier(id)
  }

  lemma SortedIdsOk(ids: seq<string>)
    ensures EvidenceIdsOk(SortedSet(ids)) <==> AllCanonical(ids)
  {
    SortedSetMeaning(ids);
  }

  lemma FactFindingOk(f: Fact, requirementId: string, evidenceId: string)
    requires CanonicalIdentifier(requirementId)
    ensures FindingOk(FactFinding(f, requirementId, evidenceId)) <==> CanonicalIdentifier(evidenceId)
  {
  }

  lemma FactFindingsOk(f: Fact, requirementId: string, ids: seq<string>)
    requires CanonicalIdentifier(requirementId)
    ensures FindingsOk(FactFindings(f, requirementId, ids)) <==> AllCanonical(ids)
  {
    var g := FactFindingFor(f, requirementId);
    MapMembers(g, ids);
    forall id ensures FindingOk(g(id)) <==> CanonicalIdentifier(id) {
      FactFindingOk(f, requirementId, id);
    }
    if FindingsOk(Map(g, ids)) {
      forall id | id in ids ensures CanonicalIdentifier(id) {
        assert g(id) in Map(g, ids);
      }
    }
  }

  lemma FindingsOkAppend(a: seq<Finding>, b: seq<Finding>)
    ensures FindingsOk(a + b) <==> FindingsOk(a) && FindingsOk(b)
  {
  }

  /** Ids under every fact are canonical. */
  predicate ListsOk(s: FactLists) {
    AllCanonical(s.candidates) && AllCanonical(s.revision) && AllCanonical(s.future) && AllCanonical(s.age)
    && AllCanonical(s.untrusted)
  }

  lemma StaleAndUntrustedOk(r: Requirement, s: FactLists)
    requires CanonicalIdentifier(r.id)
    ensures FindingsOk(StaleAndUntrustedFindings(r, s)) <==>
      AllCanonical(s.revision) && AllCanonical(s.future) && AllCanonical(s.age) && AllCanonical(s.untrusted)
  {
    var a, b := FactFindings(StaleRevision, r.id, s.revision), FactFindings(StaleFuture, r.id, s.future);
    var c, d := FactFindings(StaleAge, r.id, s.age), FactFindings(UntrustedProducer, r.id, s.untrusted);
    FactFindingsOk(StaleRevision, r.id, s.revision);
    FactFindingsOk(StaleFuture, r.id, s.future);
    FactFindingsOk(StaleAge, r.id, s.age);
    FactFindingsOk(UntrustedProducer, r.id, s.untrusted);
    FindingsOkAppend(a, b);
    FindingsOkAppend(a + b, c);
    FindingsOkAppend(a + b + c, d);
  }

  lemma ConflictFindingsOk(r: Requirement, s: FactLists)
    requires CanonicalIdentifier(r.id)
    ensures AllCanonical(s.candidates) ==> FindingsOk(ConflictFindings(r, s))
  {
    SortedIdsOk(s.candidates);
  }

  /** The result of a matched requirement, if its stale and untrusted ids are canonical. */
  lemma ResultFromOk(r: Requirement, s: FactLists)
    requires CanonicalIdentifier(r.id)
    requires AllCanonical(s.Stale()) && AllCanonical(s.untrusted)
    ensures RequirementOk(ResultFrom(r, s)) <==> AllCanonical(s.candidates)
  {
    SortedIdsOk(s.candidates);
    SortedIdsOk(s.Stale());
    SortedIdsOk(s.untrusted);
    SortedSetMeaning(s.candidates);
  }

  lemma FactIdsOk(r: Requirement, evidence: seq<Evidence>, at: int, f: Fact)
    ensures AllCanonical(FactIds(r, Matched(r, evidence), at, f)) <==>
      forall e :: e in evidence && e.evidenceType == r.evidenceType && DeriveFact(r, e, at) == f ==>
        CanonicalIdentifier(e.id)
  {
    var items := Filter(WithFact(r, at, f), Matched(r, evidence));
    MapMembers(IdOf, items);
    forall e ensures e in items <==> e in evidence && e.evidenceType == r.evidenceType && DeriveFact(r, e, at) == f {
    }
    if AllCanonical(Map(IdOf, items)) {
      forall e | e in items ensures CanonicalIdentifier(e.id) {
        assert IdOf(e) in Map(IdOf, items);
      }
    }
  }

  lemma ListsOkMeaning(r: Requirement, evidence: seq<Evidence>, at: int)
    ensures ListsOk(SortFacts(r, Matched(r, evidence), at)) <==> MatchedIdsOk(r, evidence)
  {
    FactIdsOk(r, evidence, at, Candidate);
    FactIdsOk(r, evidence, at, StaleRevision);
    FactIdsOk(r, evidence, at, StaleFuture);
    FactIdsOk(r, evidence, at, StaleAge);
    FactIdsOk(r, evidence, at, UntrustedProducer);
  }

  /** The kernel accepts a requirement's result and findings exactly when its matched ids are canonical. */
  lemma RequirementAccepted(r: Requirement, evidence: seq<Evidence>, at: int)
    requires CanonicalIdentifier(r.id)
    ensures RequirementOk(RequirementResultOf(r, evidence, at)) && FindingsOk(RequirementFindings(r, evidence, at))
       <==> MatchedIdsOk(r, evidence)
  {
    ListsOkMeaning(r, evidence, at);
    var s := SortFacts(r, Matched(r, evidence), at);
    StaleAndUntrustedOk(r, s);
    ConflictFindingsOk(r, s);
    FindingsOkAppend(StaleAndUntrustedFindings(r, s), ConflictFindings(r, s));
    if AllCanonical(s.revision) && AllCanonical(s.future) && AllCanonical(s.age) && AllCanonical(s.untrusted) {
      ResultFromOk(r, s);
    }
    NoMatch(r, evidence);
  }

  lemma NoMatch(r: Requirement, evidence: seq<Evidence>)
    ensures Matched(r, evidence) == [] ==> MatchedIdsOk(r, evidence)
    ensures CanonicalIdentifier(r.id) ==> RequirementOk(MissingResult(r)) && FindingsOk([MissingFinding(r)])
  {
  }

  // ---- the whole evaluation ----

  lemma WithStatusOk(r: RequirementResult, waivers: seq<Waiver>, input: Input)
    requires r.waiverStatus.NotApplicable?
    ensures RequirementOk(WithStatus(r, waivers, input)) <==> RequirementOk(r)
  {
  }

  function BadFindings(evidence: seq<Evidence>, at: int): Requirement -> bool {
    (r: Requirement) => !FindingsOk(RequirementFindings(r, evidence, at))
  }

  predicate BadResult(f: RequirementResult) { !RequirementOk(f) }

  function BadMatch(evidence: seq<Evidence>): Requirement -> bool {
    (r: Requirement) => !MatchedIdsOk(r, evidence)
  }

  lemma RequirementsAccepted(input: Input)
    requires InputOk(input)
    ensures (forall f :: f in WaiverPass(input).results ==> RequirementOk(f))
            && !Any(BadFindings(input.evidence, input.evaluatedAt), input.policy.requirements)
       <==> !Any(BadMatch(input.evidence), input.policy.requirements)
  {
    var rs, fs := input.policy.requirements, WaiverPass(input).results;
    forall k | 0 <= k < |rs|
      ensures BadFindings(input.evidence, input.evaluatedAt)(rs[k]) || BadResult(fs[k])
         <==> BadMatch(input.evidence)(rs[k])
    {
      assert rs[k] in rs;
      FinalResultAt(input, k);
      ResultOutcome(rs[k], input.evidence, input.evaluatedAt);
      WithStatusOk(BaseResults(input)[k], input.waivers, input);
      RequirementAccepted(rs[k], input.evidence, input.evaluatedAt);
    }
    AnyZipped(BadFindings(input.evidence, input.evaluatedAt), BadResult, BadMatch(input.evidence), rs, fs);
  }

  lemma EvidenceFindingsOk(requirements: seq<Requirement>, evidence: seq<Evidence>, at: int)
    ensures FindingsOk(EvidenceFindings(requirements, evidence, at)) <==> !Any(BadFindings(evidence, at), requirements)
  {
    FlatMapMembers(FindingsFor(evidence, at), requirements);
  }

  lemma UniverseFindingsOk(criteria: seq<Criterion>, requirements: seq<Requirement>)
    requires RequirementIdsOk(requirements) && CriteriaOk(criteria)
    ensures FindingsOk(UniverseFindings(criteria, requirements))
  {
    var refs, known := References(criteria), KnownIds(requirements);
    UnknownFindingsFrom(refs, known);
    UnreferencedMeaning(refs, requirements);
    ReferencesCanonical(criteria);
    FindingsOkAppend(UnknownFindings(refs, known), Map(UnreferencedFinding, Filter(Unreferenced(refs), requirements)));
  }

  lemma ReferencesCanonical(criteria: seq<Criterion>)
    requires CriteriaOk(criteria)
    ensures forall r :: r in References(criteria) ==> CanonicalIdentifier(r.requirement)
  {
    FlatMapMembers(CriterionReferences, criteria);
    forall r | r in References(criteria) ensures CanonicalIdentifier(r.requirement) {
      var c :| c in criteria && r in CriterionReferences(c);
      MapMembers(ReferenceIn(c.id), c.requirements);
    }
  }

  /** A finding may name no requirement, so an empty target is let through. */
  predicate TargetOk(w: Waiver) {
    w.targetId == "" || CanonicalIdentifier(w.targetId)
  }

  lemma WaiverFindingOk(resolution: Resolution, w: Waiver)
    ensures FindingOk(WaiverFinding(resolution, w)) <==> TargetOk(w)
  {
  }

  lemma WaiverFindingsOk(input: Input)
    requires InputOk(input)
    ensures FindingsOk(WaiverPass(input).findings) <==> forall w :: w in input.waivers ==> TargetOk(w)
  {
    var p, ws, base := WaiverPass(input), input.waivers, BaseResults(input);
    BaseResultsUnwaived(input);
    PassMeaning(base, ws, input);
    forall j | 0 <= j < |ws| ensures FindingOk(p.findings[j]) <==> TargetOk(ws[j]) {
      assert ResolvedAt(p, j, ws, base, input);
      WaiverFindingOk(ResolutionOf(ws, j, base, input), ws[j]);
    }
    if FindingsOk(p.findings) {
      forall w | w in ws ensures TargetOk(w) {
        var j :| 0 <= j < |ws| && ws[j] == w;
        assert p.findings[j] in p.findings;
      }
    }
  }

  lemma AllFindingsOk(input: Input)
    requires InputOk(input)
    ensures FindingsOk(Findings(input)) <==>
      !Any(BadFindings(input.evidence, input.evaluatedAt), input.policy.requirements)
      && forall w :: w in input.waivers ==> TargetOk(w)
  {
    var u := UniverseFindings(input.contract.criteria, input.policy.requirements);
    var e := EvidenceFindings(input.policy.requirements, input.evidence, input.evaluatedAt);
    var w := WaiverPass(input).findings;
    SortMembers(FindingLeq, u + e + w);
    FindingsOkAppend(u, e);
    FindingsOkAppend(u + e, w);
    UniverseFindingsOk(input.contract.criteria, input.policy.requirements);
    EvidenceFindingsOk(input.policy.requirements, input.evidence, input.evaluatedAt);
    WaiverFindingsOk(input);
  }

  lemma AcceptsParts(input: Input)
    requires InputOk(input)
    ensures RequirementsOk(WaiverPass(input).results)
       <==> forall f :: f in WaiverPass(input).results ==> RequirementOk(f)
  {
    FinalUnique(input);
  }

  lemma AcceptsMeaning(input: Input)
    requires InputOk(input)
    ensures KernelAccepts(input) <==>
      !Any(BadMatch(input.evidence), input.policy.requirements) && forall w :: w in input.waivers ==> TargetOk(w)
  {
    RequirementsAccepted(input);
    AcceptsParts(input);
    AllFindingsOk(input);
  }

  lemma NoBadMatch(requirements: seq<Requirement>, evidence: seq<Evidence>)
    ensures !Any(BadMatch(evidence), requirements) <==> forall r :: r in requirements ==> MatchedIdsOk(r, evidence)
  {
  }

  /**
   For an input the evaluator accepts, the kernel rejects nothing exactly when
   every envelope matched by some requirement has a canonical id and every
   record's target is canonical or empty; the loaders guarantee both.
   */
  lemma KernelTotality(input: Input)
    requires InputOk(input)
    ensures KernelAccepts(input) <==> (
      && (forall r :: r in input.policy.requirements ==> MatchedIdsOk(r, input.evidence))
      && (forall w :: w in input.waivers ==> TargetOk(w)))
  {
    AcceptsMeaning(input);
    NoBadMatch(input.policy.requirements, input.evidence);
  }
}
