/** What a receipt records of the documents it is built from. */
module ReceiptContents {
  import opened DecisionLaws
  import opened Domain
  import opened Evaluation
  import opened Gates
  import opened Inputs
  import opened Normalization
  import opened ReceiptLaws
  import opened Receipts
  import opened Seqs
  import opened Sorting
  import opened Text
  import opened WaiverLaws
  import opened Waivers
  import L = Loaders

  // ---- gate documents ----

  /** The text in front of a document's path, by where it was read. */
  function PlaceOf(origin: Origin): string {
    if origin.Base? then "base:" + origin.revision + ":" else "workspace:"
  }

  /** Work unit, sources, digests and trust are those of the gate files read. */
  predicate GatesRecorded(r: Receipt, gates: GateFiles, origin: Origin) {
    && gates.contract.document.Some? && r.workUnit == gates.contract.document.value.workUnit
    && r.contractSource == PlaceOf(origin) + ".assurectl/contract.json"
    && r.contractDigest == gates.contract.digest && r.policyDigest == gates.policy.digest
    && r.contractTrust == r.policyTrust == if origin.Base? then Trusted else Untrusted
  }

  lemma GatesKept(b: BuildInput, gates: GateFiles, origin: Origin, baseline: Digest)
    requires ContractAt(gates.contract, origin) == Some(b.contract) && PolicyAt(gates.policy, origin) == Some(b.policy)
    ensures GatesRecorded(ReceiptOf(b, baseline), gates, origin)
  {
    assert CONTRACT_PATH == ".assurectl/contract.json";
  }

  /** What the evaluator reads of the gate documents. */
  lemma GatesTaken(gates: GateFiles, origin: Origin)
    requires ContractAt(gates.contract, origin).Some? && PolicyAt(gates.policy, origin).Some?
    ensures gates.contract.document.Some? && gates.policy.document.Some?
    ensures ContractAt(gates.contract, origin).value.criteria == gates.contract.document.value.criteria
    ensures ContractAt(gates.contract, origin).value.workUnit == gates.contract.document.value.workUnit
    ensures PolicyAt(gates.policy, origin).value.requirements == gates.policy.document.value.requirements
  {
  }

  /** The project's policy layer: bound to the subject's base when it was read there. */
  function ProjectLayer(gates: GateFiles, origin: Origin): PolicySource {
    if origin.Base? then
      PolicySource("project", "base:" + origin.revision + ":" + ".assurectl/policy.json", gates.policy.digest,
                   Trusted, TrustedBase, "SUBJECT_BASE")
    else
      PolicySource("project", "workspace:" + ".assurectl/policy.json", gates.policy.digest,
                   Untrusted, AdvisoryWorkspace, "")
  }

  /** The policy's layers are the built-in baseline, never trusted, and the project's. */
  predicate LayersRecorded(r: Receipt, gates: GateFiles, origin: Origin, baseline: Digest) {
    r.policySources == [
      PolicySource("protocol_baseline", "builtin:assurectl/protocol-baseline/v0", baseline, Untrusted,
                   AdvisoryWorkspace, ""),
      ProjectLayer(gates, origin)]
  }

  lemma LayersKept(b: BuildInput, gates: GateFiles, origin: Origin, baseline: Digest)
    requires PolicyAt(gates.policy, origin) == Some(b.policy)
    ensures LayersRecorded(ReceiptOf(b, baseline), gates, origin, baseline)
  {
    assert POLICY_PATH == ".assurectl/policy.json";
  }

  /** The claim and the subject as given, the build that verified, and the instant cut to whole seconds. */
  lemma OptionsKept(b: BuildInput, baseline: Digest)
    ensures var r := ReceiptOf(b, baseline); (
      && r.authority == b.authority && r.subject == b.subject
      && r.verifier == Verifier("assurectl", b.version, "v0")
      && r.evaluatedAt % 1_000_000_000 == 0
      && r.evaluatedAt <= b.evaluatedAt < r.evaluatedAt + 1_000_000_000)
  {
  }

  /** The evaluation's results, findings, verdict and decision, unchanged. */
  lemma EvaluationKept(b: BuildInput, baseline: Digest)
    ensures var (r, o) := (ReceiptOf(b, baseline), b.evaluation); (
      && r.requirementResults == o.requirements && r.findings == o.findings
      && r.verdict == o.verdict.verdict && r.decision == o.verdict.decision)
  {
  }

  // ---- evidence ----

  /** The reference names the file's envelope and the digest of its canonical form. */
  predicate RefersTo(x: EvidenceReference, f: L.EvidenceFile) {
    f.envelope.Some? && x.id == f.envelope.value.id && x.digest == f.digest
  }

  /** The receipt refers to every evidence file and to nothing else, once each, by increasing id. */
  ghost predicate EvidenceRecorded(s: seq<EvidenceReference>, files: seq<L.EvidenceFile>) {
    && (forall x :: x in s <==> exists f :: f in files && RefersTo(x, f))
    && forall i, j :: 0 <= i < j < |s| ==> StringLess(s[i].id, s[j].id)
  }

  lemma EvidenceListed(evidence: seq<Evidence>)
    ensures forall x :: x in EvidenceReferences(evidence) <==>
      exists e :: e in evidence && x.id == e.id && x.digest == e.digest
  {
    SortMembers(ReferenceLeq, Map(ReferenceTo, evidence));
    forall e | e in evidence ensures EvidenceReference(e.id, e.digest) in Map(ReferenceTo, evidence) {
      var i :| 0 <= i < |evidence| && evidence[i] == e;
      assert Map(ReferenceTo, evidence)[i] == ReferenceTo(e);
    }
  }

  lemma FilesReferred(evidence: seq<Evidence>, files: seq<L.EvidenceFile>, subject: Subject, x: EvidenceReference)
    requires L.LoadedFrom(evidence, files, subject)
    ensures (exists e :: e in evidence && x.id == e.id && x.digest == e.digest)
       <==> exists f :: f in files && RefersTo(x, f)
  {
    if e :| e in evidence && x.id == e.id && x.digest == e.digest {
      var i :| 0 <= i < |evidence| && evidence[i] == e;
      assert files[i] in files && RefersTo(x, files[i]);
    }
    if f :| f in files && RefersTo(x, f) {
      var i :| 0 <= i < |files| && files[i] == f;
      assert evidence[i] in evidence;
    }
  }

  lemma ReferencesInOrder(evidence: seq<Evidence>)
    requires UniqueEvidence(evidence)
    ensures var s := EvidenceReferences(evidence); forall i, j :: 0 <= i < j < |s| ==> StringLess(s[i].id, s[j].id)
  {
    ReferenceOrder();
    SortSorts(ReferenceLeq, Map(ReferenceTo, evidence));
    ReferencesUnique(evidence);
  }

  lemma EvidenceKept(evidence: seq<Evidence>, files: seq<L.EvidenceFile>, subject: Subject)
    requires UniqueEvidence(evidence) && L.LoadedFrom(evidence, files, subject)
    ensures EvidenceRecorded(EvidenceReferences(evidence), files)
  {
    EvidenceListed(evidence);
    ReferencesInOrder(evidence);
    forall x ensures x in EvidenceReferences(evidence) <==> exists f :: f in files && RefersTo(x, f) {
      FilesReferred(evidence, files, subject, x);
    }
  }

  // ---- results and waivers ----

  predicate ResultNames(f: RequirementResult, r: Requirement) {
    && f.requirementId == r.id && f.waivable == r.waivable
    && (f.waiverStatus == WaiverValid || f.waiverStatus == NotApplicable)
  }

  /** One result for each requirement, in policy order, waived or without a status. */
  predicate ResultsRecorded(s: seq<RequirementResult>, rs: seq<Requirement>) {
    |s| == |rs| && forall k :: 0 <= k < |s| ==> ResultNames(s[k], rs[k])
  }

  lemma NormalizedNames(r: Requirement, evidence: seq<Evidence>, at: int)
    ensures var b := RequirementResultOf(r, evidence, at);
      b.requirementId == r.id && b.waivable == r.waivable && b.waiverStatus == NotApplicable
  {
  }

  lemma StatusNames(b: RequirementResult, r: Requirement, waivers: seq<Waiver>, input: Input)
    requires b.requirementId == r.id && b.waivable == r.waivable && b.waiverStatus == NotApplicable
    ensures ResultNames(WithStatus(b, waivers, input), r)
  {
  }

  lemma ResultKept(input: Input, k: nat)
    requires InputOk(input) && k < |input.policy.requirements|
    ensures k < |WaiverPass(input).results| && ResultNames(WaiverPass(input).results[k], input.policy.requirements[k])
  {
    var r := input.policy.requirements[k];
    FinalResultAt(input, k);
    NormalizedNames(r, input.evidence, input.evaluatedAt);
    StatusNames(BaseResults(input)[k], r, input.waivers, input);
  }

  lemma PassCounts(input: Input)
    requires InputOk(input)
    ensures |WaiverPass(input).results| == |input.policy.requirements|
    ensures |WaiverPass(input).resolved| == |input.waivers|
  {
    BaseResultsUnwaived(input);
    PassMeaning(BaseResults(input), input.waivers, input);
  }

  lemma ResultsKept(input: Input)
    requires InputOk(input)
    ensures ResultsRecorded(OutputsOf(input).requirements, input.policy.requirements)
  {
    PassCounts(input);
    forall k | 0 <= k < |input.policy.requirements|
      ensures ResultNames(WaiverPass(input).results[k], input.policy.requirements[k])
    {
      ResultKept(input, k);
    }
  }

  /** The receipt's record is the supplied one, field by field, but for its status. */
  predicate Recorded(x: WaiverRecord, w: Waiver) {
    && x.id == w.id && x.target.kind == w.targetKind && x.target.id == w.targetId
    && x.scope.repositoryUri == w.scopeRepository && x.scope.workUnitId == w.scopeWorkUnit
    && x.scope.headRevision == w.scopeHead && x.reason == w.reason && x.acceptedRisk == w.acceptedRisk
    && x.approver.identity == w.approverIdentity && x.approver.authority == w.approverAuthority
    && x.issuedAt == w.issuedAt && x.expiresAt == w.expiresAt && x.digest == w.digest
    && (x.status == WaiverValid || x.status == WaiverInvalid)
  }

  /** Every supplied record is in the receipt, in its order, applied or not. */
  predicate WaiversRecorded(s: seq<WaiverRecord>, ws: seq<Waiver>) {
    |s| == |ws| && forall j :: 0 <= j < |ws| ==> Recorded(s[j], ws[j])
  }

  lemma WaiverKept(input: Input, j: nat)
    requires InputOk(input) && j < |input.waivers| && j < |WaiverPass(input).resolved|
    ensures Recorded(ConvertWaiver(WaiverPass(input).resolved[j]), input.waivers[j])
  {
    ResolvedRecord(input, j);
  }

  lemma WaiversKept(input: Input)
    requires InputOk(input)
    ensures WaiversRecorded(Map(ConvertWaiver, OutputsOf(input).waivers), input.waivers)
  {
    PassCounts(input);
    forall j | 0 <= j < |input.waivers|
      ensures Recorded(ConvertWaiver(WaiverPass(input).resolved[j]), input.waivers[j])
    {
      WaiverKept(input, j);
    }
  }
}
