/** The decision of a whole evaluation, read off its inputs alone. */
module DecisionLaws {
  import opened Domain
  import opened Evaluation
  import opened Inputs
  import opened Kernel
  import opened Normalization
  import opened RequirementLaws
  import opened Seqs
  import opened Sorting
  import opened Universe
  import opened WaiverLaws
  import opened Waivers

  /** Every requirement the contract names is defined by the policy. */
  predicate ReferencesKnown(input: Input) {
    forall c, q :: c in input.contract.criteria && q in c.requirements ==>
      exists r :: r in input.policy.requirements && r.id == q
  }

  lemma ReferencesMeaning(input: Input)
    ensures ReferencesKnown(input)
       <==> Referenced(References(input.contract.criteria)) <= KnownIds(input.policy.requirements)
  {
    ReferencedMeaning(input.contract.criteria);
    var refs, known := Referenced(References(input.contract.criteria)), KnownIds(input.policy.requirements);
    if ReferencesKnown(input) {
      forall q | q in refs ensures q in known {
        var c :| c in input.contract.criteria && q in c.requirements;
      }
    }
    if refs <= known {
      forall c, q | c in input.contract.criteria && q in c.requirements
        ensures exists r :: r in input.policy.requirements && r.id == q
      {
        assert q in refs && q in known;
      }
    }
  }

  predicate Passes(r: Requirement, input: Input) {
    Passing(r, input.evidence, input.evaluatedAt)
  }

  predicate Fails(r: Requirement, input: Input) {
    Failing(r, input.evidence, input.evaluatedAt)
  }

  /** The record names this repository, this work unit, and this head or none. */
  predicate InScope(w: Waiver, input: Input) {
    && w.scopeRepository == input.subject.repositoryUri && w.scopeWorkUnit == input.contract.workUnit.id
    && (w.scopeHead != "" ==> w.scopeHead == input.subject.headRevision)
  }

  /** The record is issued by the instant and not yet expired, on dates that parse. */
  predicate Current(w: Waiver, at: int) {
    && w.issuedAt.instant.Some? && w.expiresAt.instant.Some?
    && w.issuedAt.instant.value <= at < w.expiresAt.instant.value
  }

  /** Some record accepts the risk of the requirement's failure. */
  predicate RiskAccepted(r: Requirement, input: Input) {
    && r.waivable
    && exists w :: w in input.waivers && w.targetId == r.id && InScope(w, input) && Current(w, input.evaluatedAt)
  }

  /** Everything the decision needs is known: contract, matches, candidates, outcomes. */
  predicate Settled(input: Input) {
    && input.policy.requirements != []
    && ReferencesKnown(input)
    && forall r :: r in input.policy.requirements ==> Passes(r, input) || Fails(r, input)
  }

  // ---- results ----

  lemma BaseResultsUnwaived(input: Input)
    requires InputOk(input)
    ensures Unwaived(BaseResults(input))
  {
    var rs, base := input.policy.requirements, BaseResults(input);
    forall k | 0 <= k < |rs| ensures base[k].requirementId == rs[k].id && base[k].waiverStatus.NotApplicable? {
      ResultOutcome(rs[k], input.evidence, input.evaluatedAt);
    }
  }

  /** A final result is its normalized one with the status its waivers earn. */
  lemma FinalResultAt(input: Input, k: nat)
    requires InputOk(input) && k < |input.policy.requirements|
    ensures |WaiverPass(input).results| == |BaseResults(input)|
    ensures WaiverPass(input).results[k] == WithStatus(BaseResults(input)[k], input.waivers, input)
  {
    BaseResultsUnwaived(input);
    PassMeaning(BaseResults(input), input.waivers, input);
  }

  /** An unwaived failure is covered exactly when some record accepts its risk. */
  lemma CoveredMeaning(b: RequirementResult, r: Requirement, input: Input)
    requires b.requirementId == r.id && b.waivable == r.waivable && b.EstablishedFailure()
    ensures Covered(b, input.waivers, input) <==> RiskAccepted(r, input)
  {
    if RiskAccepted(r, input) {
      var w :| w in input.waivers && w.targetId == r.id && InScope(w, input) && Current(w, input.evaluatedAt);
      assert Covers(w, b, input);
    }
  }

  /** What final result `k` says about requirement `k`. */
  lemma FinalResultMeaning(input: Input, k: nat)
    requires InputOk(input) && k < |input.policy.requirements|
    ensures var (r, f) := (input.policy.requirements[k], WaiverPass(input).results[k]); (
      && f.requirementId == r.id && f.waivable == r.waivable
      && (f.EstablishedFailure() <==> CandidateFailure(r, input.evidence, input.evaluatedAt))
      && (f.state.ValidState? ==> f.outcome.Known())
      && (f.EstablishedFailure() ==> (Waived(f) <==> RiskAccepted(r, input))))
  {
    FinalResultAt(input, k);
    ResultOutcome(input.policy.requirements[k], input.evidence, input.evaluatedAt);
    if BaseResults(input)[k].EstablishedFailure() {
      CoveredMeaning(BaseResults(input)[k], input.policy.requirements[k], input);
    }
  }

  /** Every requirement has one final result. */
  lemma FinalUnique(input: Input)
    requires InputOk(input)
    ensures UniqueIds(WaiverPass(input).results)
  {
    var rs, fs := input.policy.requirements, WaiverPass(input).results;
    forall k | 0 <= k < |rs| ensures fs[k].requirementId == rs[k].id {
      FinalResultMeaning(input, k);
    }
  }

  // ---- findings ----

  /** Some finding is raised against the requirement. */
  function Faulted(evidence: seq<Evidence>, at: int): Requirement -> bool {
    (r: Requirement) => RequirementFindings(r, evidence, at) != []
  }

  lemma RequirementBlocks(r: Requirement, evidence: seq<Evidence>, at: int)
    ensures SomeBlocking(RequirementFindings(r, evidence, at)) <==> Faulted(evidence, at)(r)
  {
    RequirementFindingsBlock(r, evidence, at);
    var fs := RequirementFindings(r, evidence, at);
    if fs != [] {
      assert fs[0] in fs;
    }
  }

  lemma EvidenceFindingsBlock(requirements: seq<Requirement>, evidence: seq<Evidence>, at: int)
    ensures SomeBlocking(EvidenceFindings(requirements, evidence, at)) <==> Any(Faulted(evidence, at), requirements)
  {
    FlatMapMembers(FindingsFor(evidence, at), requirements);
    forall r ensures SomeBlocking(FindingsFor(evidence, at)(r)) <==> Faulted(evidence, at)(r) {
      RequirementBlocks(r, evidence, at);
    }
  }

  lemma WaiverFindingsNeverBlock(input: Input)
    requires InputOk(input)
    ensures !SomeBlocking(WaiverPass(input).findings)
  {
    BaseResultsUnwaived(input);
    RecordsConserved(BaseResults(input), input.waivers, input);
    var p := WaiverPass(input);
    forall f | f in p.findings ensures !f.blocking {
      var j :| 0 <= j < |p.findings| && p.findings[j] == f;
      assert ConservedAt(p, input.waivers, j);
    }
  }

  /** What blocks: an unknown reference, or any evidence finding. */
  lemma BlockingMeaning(input: Input)
    requires InputOk(input)
    ensures SomeBlocking(Findings(input)) <==>
      !ReferencesKnown(input) || Any(Faulted(input.evidence, input.evaluatedAt), input.policy.requirements)
  {
    var base, waivers := BaseFindings(input), WaiverPass(input).findings;
    SortMembers(FindingLeq, base + waivers);
    BlockingAppend(base, waivers);
    WaiverFindingsNeverBlock(input);
    UniverseBlocks(input.contract.criteria, input.policy.requirements);
    ReferencesMeaning(input);
    EvidenceFindingsBlock(input.policy.requirements, input.evidence, input.evaluatedAt);
    BlockingAppend(UniverseFindings(input.contract.criteria, input.policy.requirements),
                   EvidenceFindings(input.policy.requirements, input.evidence, input.evaluatedAt));
  }

  // ---- the kernel's questions, asked of the inputs ----

  predicate Unclear(f: RequirementResult) { !f.state.ValidState? || f.outcome.Errored? }

  predicate Established(f: RequirementResult) { f.EstablishedFailure() }

  predicate Unwaivered(f: RequirementResult) { f.EstablishedFailure() && !Waived(f) }

  function Unsettled(input: Input): Requirement -> bool {
    (r: Requirement) => !Passes(r, input) && !Fails(r, input)
  }

  function FailsAmongCandidates(input: Input): Requirement -> bool {
    (r: Requirement) => CandidateFailure(r, input.evidence, input.evaluatedAt)
  }

  function Unaccepted(input: Input): Requirement -> bool {
    (r: Requirement) => CandidateFailure(r, input.evidence, input.evaluatedAt) && !RiskAccepted(r, input)
  }

  /** A requirement is settled exactly when it has no finding and its result is clear. */
  lemma UnsettledAt(input: Input, k: nat)
    requires InputOk(input) && k < |input.policy.requirements|
    ensures var (r, f) := (input.policy.requirements[k], WaiverPass(input).results[k]);
      Faulted(input.evidence, input.evaluatedAt)(r) || Unclear(f) <==> Unsettled(input)(r)
  {
    var r := input.policy.requirements[k];
    FinalResultAt(input, k);
    NoFindings(r, input.evidence, input.evaluatedAt);
    ResultOutcome(r, input.evidence, input.evaluatedAt);
  }

  lemma StuckMeaning(input: Input)
    requires InputOk(input)
    ensures SomeIndeterminate(WaiverPass(input).results) || SomeBlocking(Findings(input))
       <==> !ReferencesKnown(input) || Any(Unsettled(input), input.policy.requirements)
  {
    BlockingMeaning(input);
    var rs, fs := input.policy.requirements, WaiverPass(input).results;
    forall k | 0 <= k < |rs|
      ensures Faulted(input.evidence, input.evaluatedAt)(rs[k]) || Unclear(fs[k]) <==> Unsettled(input)(rs[k])
    {
      UnsettledAt(input, k);
    }
    AnyZipped(Faulted(input.evidence, input.evaluatedAt), Unclear, Unsettled(input), rs, fs);
    assert SomeIndeterminate(fs) <==> Any(Unclear, fs);
  }

  lemma FailureMeaning(input: Input)
    requires InputOk(input)
    ensures SomeFailure(WaiverPass(input).results) <==> Any(FailsAmongCandidates(input), input.policy.requirements)
    ensures EveryFailureWaived(WaiverPass(input).results) <==> !Any(Unaccepted(input), input.policy.requirements)
  {
    var rs, fs := input.policy.requirements, WaiverPass(input).results;
    var never := (r: Requirement) => false;
    forall k | 0 <= k < |rs|
      ensures never(rs[k]) || Established(fs[k]) <==> FailsAmongCandidates(input)(rs[k])
      ensures never(rs[k]) || Unwaivered(fs[k]) <==> Unaccepted(input)(rs[k])
    {
      FinalResultMeaning(input, k);
    }
    AnyZipped(never, Established, FailsAmongCandidates(input), rs, fs);
    AnyZipped(never, Unwaivered, Unaccepted(input), rs, fs);
    assert SomeFailure(fs) <==> Any(Established, fs);
    assert EveryFailureWaived(fs) <==> !Any(Unwaivered, fs);
  }

  /**
   The decision, read off the inputs. Anything unsettled blocks. Otherwise no
   failing requirement approves, failures whose risk is accepted are accepted
   with risk, and any other failure rejects.
   */
  lemma DecisionMeaning(input: Input)
    requires InputOk(input)
    ensures var d := OutputsOf(input).verdict.decision; var rs := input.policy.requirements; (
      && (d != Blocked <==> Settled(input))
      && (d == Approved <==> Settled(input) && forall r :: r in rs ==> Passes(r, input))
      && (d == AcceptedWithRisk <==>
            Settled(input) && (exists r :: r in rs && Fails(r, input))
            && forall r :: r in rs && Fails(r, input) ==> RiskAccepted(r, input))
      && (d == Rejected <==> Settled(input) && exists r :: r in rs && Fails(r, input) && !RiskAccepted(r, input)))
  {
    StuckMeaning(input);
    FailureMeaning(input);
    SettledFailures(input);
  }

  /** In a settled input the candidates of a requirement fail exactly when all its matches do. */
  lemma SettledFailures(input: Input)
    requires InputOk(input)
    ensures Settled(input) <==>
      input.policy.requirements != [] && ReferencesKnown(input) && !Any(Unsettled(input), input.policy.requirements)
    ensures Settled(input) ==> forall r :: r in input.policy.requirements ==>
      (Fails(r, input) <==> FailsAmongCandidates(input)(r)) && (Passes(r, input) <==> !Fails(r, input))
  {
  }

  /**
   The verdict is FAILED exactly when some requirement's candidates establish a
   failure, whatever else blocks the decision.
   */
  lemma VerdictMeaning(input: Input)
    requires InputOk(input)
    ensures var v := OutputsOf(input).verdict.verdict; (
      && (v == VerdictFailed <==>
            exists r :: r in input.policy.requirements && CandidateFailure(r, input.evidence, input.evaluatedAt))
      && (v == VerdictPassed <==> Settled(input) && forall r :: r in input.policy.requirements ==> Passes(r, input)))
  {
    StuckMeaning(input);
    FailureMeaning(input);
    SettledFailures(input);
  }
}
