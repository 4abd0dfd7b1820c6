/** How the receipt builder agrees with the evaluator whose result it records. */
module ReceiptLaws {
  import opened DecisionLaws
  import opened Domain
  import opened Evaluation
  import opened Facts
  import opened Inputs
  import opened Kernel
  import opened Normalization
  import opened OrderInvariance
  import opened Receipts
  import opened Seqs
  import opened SortedIds
  import opened Sorting
  import opened Text
  import opened WaiverLaws
  import opened Waivers

  /** Evidence as the loader returns it: no id twice. */
  ghost predicate UniqueEvidence(evidence: seq<Evidence>) {
    forall i, j :: 0 <= i < j < |evidence| ==> evidence[i].id != evidence[j].id
  }

  function SuppliedIds(evidence: seq<Evidence>): set<string> {
    set e | e in evidence :: e.id
  }

  // ---- evidence references ----

  lemma ReferenceOrder()
    ensures TotalPreorder(ReferenceLeq)
  {
    forall a, b ensures ReferenceLeq(a, b) || ReferenceLeq(b, a) {
      StringLeqTotal(a.id, b.id);
    }
    forall a, b, c | ReferenceLeq(a, b) && ReferenceLeq(b, c) ensures ReferenceLeq(a, c) {
      StringLeqTransitive(a.id, b.id, c.id);
    }
  }

  function ReferenceId(r: EvidenceReference): string { r.id }

  lemma DistinctCounts(s: seq<string>)
    ensures Distinct(s) <==> forall x :: multiset(s)[x] <= 1
  {
    if Distinct(s) {
      forall x ensures multiset(s)[x] <= 1 {
        DistinctOnce(s, x);
      }
    }
    if !Distinct(s) {
      var i, j :| 0 <= i < j < |s| && s[i] == s[j];
      TwiceCounts(s, i, j);
    }
  }

  lemma {:induction false} DistinctOnce(s: seq<string>, x: string)
    requires Distinct(s)
    ensures multiset(s)[x] <= 1
  {
    if s != [] {
      assert s == [s[0]] + s[1..];
      DistinctOnce(s[1..], x);
      assert s[0] !in s[1..];
      assert s[0] in multiset(s[1..]) <==> s[0] in s[1..];
    }
  }

  lemma TwiceCounts(s: seq<string>, i: nat, j: nat)
    requires i < j < |s| && s[i] == s[j]
    ensures multiset(s)[s[i]] >= 2
  {
    assert s == s[..i] + [s[i]] + s[i + 1..j] + [s[j]] + s[j + 1..];
  }

  lemma PermutedDistinct(a: seq<string>, b: seq<string>)
    requires Permuted(a, b) && Distinct(a)
    ensures Distinct(b)
  {
    DistinctCounts(a);
    DistinctCounts(b);
  }

  /** Sorting keeps every reference, once each. */
  lemma ReferencesUnique(evidence: seq<Evidence>)
    requires UniqueEvidence(evidence)
    ensures UniqueReferences(EvidenceReferences(evidence))
    ensures ReferenceIds(EvidenceReferences(evidence)) == SuppliedIds(evidence)
  {
    var references := Map(ReferenceTo, evidence);
    SortPermutes(ReferenceLeq, references);
    SortMembers(ReferenceLeq, references);
    PermutedMap(ReferenceId, references, EvidenceReferences(evidence));
    assert Distinct(Map(ReferenceId, references));
    PermutedDistinct(Map(ReferenceId, references), Map(ReferenceId, EvidenceReferences(evidence)));
    UniqueByIds(EvidenceReferences(evidence));
    ReferenceIdsOf(evidence);
  }

  lemma UniqueByIds(references: seq<EvidenceReference>)
    requires Distinct(Map(ReferenceId, references))
    ensures UniqueReferences(references)
  {
  }

  lemma ReferenceIdsOf(evidence: seq<Evidence>)
    ensures ReferenceIds(EvidenceReferences(evidence)) == SuppliedIds(evidence)
  {
    SortMembers(ReferenceLeq, Map(ReferenceTo, evidence));
    MapMembers(ReferenceTo, evidence);
    forall e | e in evidence ensures e.id in ReferenceIds(EvidenceReferences(evidence)) {
      assert ReferenceTo(e) in EvidenceReferences(evidence);
    }
  }

  /** With unique ids, the references do not depend on ingestion order. */
  lemma ReferencesOrderInvariant(evidence: seq<Evidence>, evidence': seq<Evidence>)
    requires UniqueEvidence(evidence) && Permuted(evidence, evidence')
    ensures EvidenceReferences(evidence) == EvidenceReferences(evidence')
  {
    ReferenceOrder();
    PermutedMap(ReferenceTo, evidence, evidence');
    var a := Map(ReferenceTo, evidence);
    forall x, y | x in a && y in a && ReferenceLeq(x, y) && ReferenceLeq(y, x) ensures x == y {
      StringLeqTotal(x.id, y.id);
      var i :| 0 <= i < |a| && a[i] == x;
      var j :| 0 <= j < |a| && a[j] == y;
    }
    PermutedSameClasses(ReferenceLeq, a, Map(ReferenceTo, evidence'));
    SortAgrees(ReferenceLeq, a, Map(ReferenceTo, evidence'));
  }

  // ---- agreement with the evaluator ----

  /** The build input for an evaluation's own result, with resolver diagnostics appended to its findings. */
  function BuildFor(input: Input, diagnostics: seq<Finding>, authority: Tier, carriesCi: bool, version: string)
    : BuildInput
  {
    BuildInput(authority, input.subject, input.contract, input.policy, input.evidence,
               OutputsOf(input).(findings := OutputsOf(input).findings + diagnostics),
               carriesCi, input.evaluatedAt, version)
  }

  /** Findings that report but never block, as the resolver appends. */
  ghost predicate Diagnostic(findings: seq<Finding>) {
    forall f :: f in findings ==> !f.blocking && FindingOk(f)
  }

  /** Re-derivation cannot fail, and a decided receipt carries no blocking finding. */
  lemma RederivationHolds(input: Input, diagnostics: seq<Finding>, b: BuildInput, baseline: Digest)
    requires KernelAccepts(input) && Diagnostic(diagnostics)
    requires b == BuildFor(input, diagnostics, b.authority, b.carriesCi, b.version)
    ensures UniqueIds(ReceiptOf(b, baseline).requirementResults)
    ensures Derived(ReceiptOf(b, baseline)) && BlockingOnlyWhenBlocked(ReceiptOf(b, baseline))
  {
    NonBlockingNeutral(WaiverPass(input).results, Findings(input), diagnostics);
    BlockingAppend(Findings(input), diagnostics);
  }

  lemma FactIdsSupplied(r: Requirement, evidence: seq<Evidence>, at: int, f: Fact)
    ensures forall id :: id in FactIds(r, Matched(r, evidence), at, f) ==> id in SuppliedIds(evidence)
  {
  }

  lemma ResultIdsSupplied(r: Requirement, evidence: seq<Evidence>, at: int)
    ensures forall id :: id in RequirementResultOf(r, evidence, at).evidenceIds ==> id in SuppliedIds(evidence)
  {
    var s := SortFacts(r, Matched(r, evidence), at);
    FactIdsSupplied(r, evidence, at, Candidate);
    FactIdsSupplied(r, evidence, at, StaleRevision);
    FactIdsSupplied(r, evidence, at, StaleFuture);
    FactIdsSupplied(r, evidence, at, StaleAge);
    FactIdsSupplied(r, evidence, at, UntrustedProducer);
    SortedSetMeaning(s.candidates);
    SortedSetMeaning(s.Stale());
    SortedSetMeaning(s.untrusted);
  }

  lemma ResultBoundAt(input: Input, k: nat)
    requires InputOk(input) && k < |input.policy.requirements| && RequirementOk(WaiverPass(input).results[k])
    ensures ResultBound(WaiverPass(input).results[k], SuppliedIds(input.evidence))
  {
    FinalResultAt(input, k);
    ResultIdsSupplied(input.policy.requirements[k], input.evidence, input.evaluatedAt);
  }

  /** Every evidence id in a result is one that was supplied. */
  lemma MembershipHolds(input: Input, diagnostics: seq<Finding>, b: BuildInput, baseline: Digest)
    requires InputOk(input) && KernelAccepts(input) && UniqueEvidence(input.evidence)
    requires b == BuildFor(input, diagnostics, b.authority, b.carriesCi, b.version)
    ensures UniqueReferences(ReceiptOf(b, baseline).evidence)
    ensures EvidenceBound(ReceiptOf(b, baseline).requirementResults, ReferenceIds(ReceiptOf(b, baseline).evidence))
  {
    ReferencesUnique(input.evidence);
    ResultsBound(input);
  }

  lemma ResultsBound(input: Input)
    requires InputOk(input) && RequirementsOk(WaiverPass(input).results)
    ensures EvidenceBound(WaiverPass(input).results, SuppliedIds(input.evidence))
  {
    var results := WaiverPass(input).results;
    forall f | f in results ensures ResultBound(f, SuppliedIds(input.evidence)) {
      var k :| 0 <= k < |results| && results[k] == f;
      ResultBoundAt(input, k);
    }
  }

  lemma AuthorityHolds(b: BuildInput, baseline: Digest)
    requires ProvenanceOk(b)
    ensures AuthorityOk(ReceiptOf(b, baseline))
  {
  }

  /** The record targets a requirement whose evidence establishes a failure. */
  predicate TargetsFailure(w: Waiver, results: seq<RequirementResult>) {
    exists r :: r in results && r.requirementId == w.targetId && r.EstablishedFailure()
  }

  lemma ResultMapUnique(results: seq<RequirementResult>, r: RequirementResult)
    requires UniqueIds(results) && r in results
    ensures r.requirementId in ResultMap(results) && ResultMap(results)[r.requirementId] == r
  {
  }

  lemma ResolvedRecord(input: Input, j: nat)
    requires InputOk(input) && j < |input.waivers|
    ensures |WaiverPass(input).resolved| == |input.waivers|
    ensures WaiverPass(input).resolved[j]
         == Resolved(ResolutionOf(input.waivers, j, BaseResults(input), input), input.waivers[j])
  {
    BaseResultsUnwaived(input);
    PassMeaning(BaseResults(input), input.waivers, input);
    assert ResolvedAt(WaiverPass(input), j, input.waivers, BaseResults(input), input);
  }

  lemma AppliedCovers(input: Input, j: nat, k: nat)
    requires InputOk(input) && j < |input.waivers| && k < |input.policy.requirements|
    requires input.waivers[j].targetId == BaseResults(input)[k].requirementId
    ensures ResolutionOf(input.waivers, j, BaseResults(input), input) == Apply ==>
      Covers(input.waivers[j], BaseResults(input)[k], input)
  {
    BaseResultsUnwaived(input);
    ApplicableAt(input.waivers[j], BaseResults(input), k, input);
  }

  /** A record that comes out VALID meets every rule for VALID records. */
  lemma ValidRecordOk(input: Input, j: nat, k: nat)
    requires InputOk(input) && j < |input.waivers| && k < |input.policy.requirements|
    requires input.waivers[j].targetId == BaseResults(input)[k].requirementId
    ensures |WaiverPass(input).resolved| == |input.waivers|
    ensures RecordOk(ConvertWaiver(WaiverPass(input).resolved[j]), WaiverPass(input).results[k],
                     input.subject.repositoryUri, input.contract.workUnit.id)
       <==> WaiverPass(input).results[k].EstablishedFailure()
  {
    ResolvedRecord(input, j);
    AppliedCovers(input, j, k);
    FinalResultAt(input, k);
  }

  lemma TargetsFailureAt(w: Waiver, results: seq<RequirementResult>)
    requires UniqueIds(results)
    ensures TargetsFailure(w, results) <==>
      w.targetId in ResultMap(results) && ResultMap(results)[w.targetId].EstablishedFailure()
  {
    if r :| r in results && r.requirementId == w.targetId && r.EstablishedFailure() {
      ResultMapUnique(results, r);
    }
  }

  /** The resolved record still names its kind and target. */
  lemma ResolvedTarget(input: Input, j: nat)
    requires InputOk(input) && j < |input.waivers|
    ensures |WaiverPass(input).resolved| == |input.waivers|
    ensures ConvertWaiver(WaiverPass(input).resolved[j]).target
         == Target(input.waivers[j].targetKind, input.waivers[j].targetId)
  {
    BaseResultsUnwaived(input);
    RecordsConserved(BaseResults(input), input.waivers, input);
    assert ConservedAt(WaiverPass(input), input.waivers, j);
  }

  lemma RecordAcceptedAt(input: Input, j: nat, k: nat)
    requires InputOk(input) && j < |input.waivers| && k < |input.policy.requirements|
    requires WaiverPass(input).results[k].requirementId == input.waivers[j].targetId
    ensures |WaiverPass(input).resolved| == |input.waivers|
    ensures RecordOk(ConvertWaiver(WaiverPass(input).resolved[j]), WaiverPass(input).results[k],
                     input.subject.repositoryUri, input.contract.workUnit.id)
       <==> WaiverPass(input).results[k].EstablishedFailure()
  {
    FinalResultAt(input, k);
    ValidRecordOk(input, j, k);
  }

  /** Whatever record `j` resolves to, the builder refuses it exactly when its target is no established failure. */
  lemma RecordAccepted(input: Input, j: nat)
    requires InputOk(input) && j < |input.waivers| && input.waivers[j].targetKind == REQUIREMENT_KIND
    ensures |WaiverPass(input).resolved| == |input.waivers|
    ensures TargetRecordOk(ConvertWaiver(WaiverPass(input).resolved[j]), ResultMap(WaiverPass(input).results),
                           input.subject.repositoryUri, input.contract.workUnit.id)
       <==> TargetsFailure(input.waivers[j], WaiverPass(input).results)
  {
    var results, w := WaiverPass(input).results, input.waivers[j];
    ResolvedTarget(input, j);
    FinalUnique(input);
    TargetsFailureAt(w, results);
    if w.targetId in ResultMap(results) {
      var k :| 0 <= k < |results| && results[k] == ResultMap(results)[w.targetId];
      RecordAcceptedAt(input, j, k);
    }
  }

  lemma RecordsAccepted(input: Input, diagnostics: seq<Finding>, b: BuildInput, baseline: Digest)
    requires InputOk(input) && forall w :: w in input.waivers ==> w.targetKind == REQUIREMENT_KIND
    requires b == BuildFor(input, diagnostics, b.authority, b.carriesCi, b.version)
    ensures WaiverRecordsOk(ReceiptOf(b, baseline))
       <==> forall w :: w in input.waivers ==> TargetsFailure(w, WaiverPass(input).results)
  {
    var p, ws := WaiverPass(input), input.waivers;
    BaseResultsUnwaived(input);
    RecordsConserved(BaseResults(input), ws, input);
    var m, uri, unit := ResultMap(p.results), input.subject.repositoryUri, input.contract.workUnit.id;
    forall j | 0 <= j < |ws|
      ensures TargetRecordOk(ConvertWaiver(p.resolved[j]), m, uri, unit) <==> TargetsFailure(ws[j], p.results)
    {
      RecordAccepted(input, j);
    }
    AllZipped(ws, Map(ConvertWaiver, p.resolved), m, uri, unit, p.results);
  }

  lemma AllZipped(ws: seq<Waiver>, records: seq<WaiverRecord>, m: map<string, RequirementResult>,
                  uri: string, unit: string, results: seq<RequirementResult>)
    requires |ws| == |records|
    requires forall j :: 0 <= j < |ws| ==>
      (TargetRecordOk(records[j], m, uri, unit) <==> TargetsFailure(ws[j], results))
    ensures (forall w :: w in records ==> TargetRecordOk(w, m, uri, unit))
       <==> forall w :: w in ws ==> TargetsFailure(w, results)
  {
  }

  /**
   Building a receipt from an evaluation's own result succeeds exactly when the
   caller's provenance claim holds, the build is versioned, the instant can be
   written with a four-digit year, and every supplied record targets an
   established failure. Re-derivation, evidence membership, the authority check
   and the non-blocking rule are never what refuses it.
   */
  lemma ReceiptAgreement(input: Input, diagnostics: seq<Finding>, b: BuildInput, baseline: Digest)
    requires InputOk(input) && KernelAccepts(input)
    requires UniqueEvidence(input.evidence) && Diagnostic(diagnostics)
    requires forall w :: w in input.waivers ==> w.targetKind == REQUIREMENT_KIND
    requires b == BuildFor(input, diagnostics, b.authority, b.carriesCi, b.version)
    ensures BuildInputOk(b) && ReceiptOk(ReceiptOf(b, baseline)) <==> (
      && ProvenanceOk(b)
      && b.version != ""
      && Writable(WholeSeconds(input.evaluatedAt))
      && forall w :: w in input.waivers ==> TargetsFailure(w, OutputsOf(input).requirements))
  {
    RederivationHolds(input, diagnostics, b, baseline);
    MembershipHolds(input, diagnostics, b, baseline);
    RecordsAccepted(input, diagnostics, b, baseline);
    if ProvenanceOk(b) {
      AuthorityHolds(b, baseline);
    }
  }

  /** An advisory receipt, with a version and a writable instant, is refused only over a record's target. */
  lemma AdvisoryAgreement(input: Input, diagnostics: seq<Finding>, version: string, baseline: Digest)
    requires InputOk(input) && KernelAccepts(input)
    requires UniqueEvidence(input.evidence) && Diagnostic(diagnostics)
    requires forall w :: w in input.waivers ==> w.targetKind == REQUIREMENT_KIND
    requires version != "" && Writable(WholeSeconds(input.evaluatedAt))
    ensures var b := BuildFor(input, diagnostics, Advisory, false, version);
      BuildInputOk(b) && ReceiptOk(ReceiptOf(b, baseline))
      <==> forall w :: w in input.waivers ==> TargetsFailure(w, OutputsOf(input).requirements)
  {
    ReceiptAgreement(input, diagnostics, BuildFor(input, diagnostics, Advisory, false, version), baseline);
  }

  /** The whole receipt is the same for every order of the evidence. */
  lemma ReceiptOrderInvariant(input: Input, evidence': seq<Evidence>, diagnostics: seq<Finding>,
                              authority: Tier, carriesCi: bool, version: string, baseline: Digest)
    requires UniqueEvidence(input.evidence) && Permuted(input.evidence, evidence')
    ensures ReceiptOf(BuildFor(input, diagnostics, authority, carriesCi, version), baseline)
         == ReceiptOf(BuildFor(input.(evidence := evidence'), diagnostics, authority, carriesCi, version), baseline)
  {
    EvidenceOrderIrrelevant(input, evidence');
    ReferencesOrderInvariant(input.evidence, evidence');
  }

  /**
   A record whose target is no established failure is resolved INVALID with
   REJECT_TARGET and changes nothing in the evaluation, yet no receipt can be
   built from it, under any provenance claim.
   */
  lemma RejectedTargetRefused(input: Input, j: nat, diagnostics: seq<Finding>, b: BuildInput, baseline: Digest)
    requires InputOk(input) && j < |input.waivers| && input.waivers[j].targetKind == REQUIREMENT_KIND
    requires !TargetsFailure(input.waivers[j], OutputsOf(input).requirements)
    requires b == BuildFor(input, diagnostics, b.authority, b.carriesCi, b.version)
    ensures ResolutionOf(input.waivers, j, BaseResults(input), input) == RejectTarget
    ensures |OutputsOf(input).waivers| == |input.waivers| && OutputsOf(input).waivers[j].status == WaiverInvalid
    ensures !WaiverRecordsOk(ReceiptOf(b, baseline))
  {
    var base, p := BaseResults(input), WaiverPass(input);
    BaseResultsUnwaived(input);
    PassMeaning(base, input.waivers, input);
    assert ResolvedAt(p, j, input.waivers, base, input);
    RecordAccepted(input, j);
    assert Map(ConvertWaiver, p.resolved)[j] in ReceiptOf(b, baseline).waivers;
    NoFailureNoCover(input, j);
  }

  lemma NoFailureNoCover(input: Input, j: nat)
    requires InputOk(input) && j < |input.waivers|
    requires !TargetsFailure(input.waivers[j], WaiverPass(input).results)
    ensures ResolutionOf(input.waivers, j, BaseResults(input), input) == RejectTarget
  {
    var base, results, w := BaseResults(input), WaiverPass(input).results, input.waivers[j];
    forall k | 0 <= k < |base| && base[k].requirementId == w.targetId ensures !base[k].EstablishedFailure() {
      FinalResultAt(input, k);
      assert results[k] in results;
    }
    NeverCovers(base, w, input);
  }

  lemma NeverCovers(base: seq<RequirementResult>, w: Waiver, input: Input)
    requires forall k :: 0 <= k < |base| && base[k].requirementId == w.targetId ==> !base[k].EstablishedFailure()
    ensures !Applicable(w, base, input) && !TargetsWaivableFailure(w, base)
  {
  }
}
