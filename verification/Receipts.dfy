/** The receipt builder: its input checks, the receipt it assembles and the semantic checks on it. */
module Receipts {
  import opened Domain
  import opened Evaluation
  import opened Inputs
  import opened Kernel
  import opened Seqs
  import opened Sorting
  import opened Text

  datatype Tier = Advisory | CiAsserted | Authoritative | OtherTier(text: string)

  datatype BuildInput = BuildInput(
    authority: Tier,
    subject: Subject,
    contract: Contract,
    policy: Policy,
    evidence: seq<Evidence>,
    evaluation: Outputs,
    carriesCi: bool,
    evaluatedAt: int,
    version: string)

  // ---- the receipt ----

  datatype EvidenceReference = EvidenceReference(id: string, digest: Digest)

  datatype PolicySource = PolicySource(
    layer: string, source: string, digest: Digest, trust: Trust, basis: Basis, revisionBinding: string)

  datatype Target = Target(kind: string, id: string)

  datatype Scope = Scope(repositoryUri: string, workUnitId: string, headRevision: string)

  datatype Approver = Approver(identity: string, authority: string)

  datatype WaiverRecord = WaiverRecord(
    id: string, target: Target, scope: Scope, reason: string, acceptedRisk: string, approver: Approver,
    issuedAt: Timestamp, expiresAt: Timestamp, status: WaiverStatus, digest: Digest)

  datatype Verifier = Verifier(name: string, version: string, protocolVersion: string)

  datatype Receipt = Receipt(
    authority: Tier,
    subject: Subject,
    workUnit: WorkUnit,
    contractSource: string,
    contractDigest: Digest,
    contractTrust: Trust,
    policySources: seq<PolicySource>,
    policyDigest: Digest,
    policyTrust: Trust,
    evidence: seq<EvidenceReference>,
    requirementResults: seq<RequirementResult>,
    findings: seq<Finding>,
    waivers: seq<WaiverRecord>,
    verdict: Verdict,
    decision: Decision,
    verifier: Verifier,
    evaluatedAt: int)

  const VERIFIER_NAME := "assurectl"
  const PROTOCOL_VERSION := "v0"
  const LAYER_PROJECT := "project"
  const LAYER_PROTOCOL_BASELINE := "protocol_baseline"
  const BASELINE_SOURCE := "builtin:assurectl/protocol-baseline/v0"
  const SUBJECT_BASE := "SUBJECT_BASE"

  /** Wall time is written in whole seconds with a four-digit year; other years do not read back. */
  const FIRST_WRITABLE := -366 * 86_400 * NANOS_PER_SECOND
  const END_WRITABLE := 3_652_059 * 86_400 * NANOS_PER_SECOND

  predicate Writable(instant: int) { FIRST_WRITABLE <= instant < END_WRITABLE }

  /** The instant a receipt records: whole seconds. */
  function WholeSeconds(instant: int): int { instant - instant % NANOS_PER_SECOND }

  // ---- build input ----

  predicate SourceNames(source: string, document: string) {
    && HasPrefix(source, "base:") && HasSuffix(source, document) && |source| >= |"base:"| + |document|
    && ObjectId(source[|"base:"|..|source| - |document|])
  }

  /** `^base:[0-9a-f]{40}([0-9a-f]{24})?:\.assurectl/(policy|contract)\.json$` */
  predicate IsBaseSource(source: string) {
    SourceNames(source, ":.assurectl/policy.json") || SourceNames(source, ":.assurectl/contract.json")
  }

  predicate ProvenanceOk(input: BuildInput) {
    match input.authority
    case Advisory => !input.carriesCi
    case CiAsserted => input.carriesCi
    case Authoritative =>
      && input.contract.trust.Trusted? && IsBaseSource(input.contract.source)
      && input.policy.trust.Trusted? && input.policy.basis.TrustedBase? && IsBaseSource(input.policy.source)
    case OtherTier(_) => false
  }

  /** Entries sharing an id share a digest. */
  ghost predicate DigestsAgree(evidence: seq<Evidence>) {
    forall i, j :: 0 <= i < j < |evidence| && evidence[i].id == evidence[j].id ==>
      evidence[i].digest == evidence[j].digest
  }

  ghost predicate BuildInputOk(input: BuildInput) {
    ProvenanceOk(input) && input.evaluatedAt != 0 && DigestsAgree(input.evidence)
  }

  method ValidateBuildInput(input: BuildInput) returns (ok: bool)
    ensures ok <==> BuildInputOk(input)
  {
    if !ProvenanceOk(input) || input.evaluatedAt == 0 {
      return false;
    }
    var seen: map<string, Digest> := map[];
    for i := 0 to |input.evidence|
      invariant DigestsAgree(input.evidence[..i])
      invariant forall id :: id in seen <==> exists j :: 0 <= j < i && input.evidence[j].id == id
      invariant forall j :: 0 <= j < i ==> seen[input.evidence[j].id] == input.evidence[j].digest
    {
      var entry := input.evidence[i];
      if entry.id in seen && seen[entry.id] != entry.digest {
        return false;
      }
      seen := seen[entry.id := entry.digest];
    }
    assert input.evidence[..|input.evidence|] == input.evidence;
    ok := true;
  }

  // ---- assembling ----

  function ReferenceTo(e: Evidence): EvidenceReference { EvidenceReference(e.id, e.digest) }

  predicate ReferenceLeq(a: EvidenceReference, b: EvidenceReference) { StringLeq(a.id, b.id) }

  function EvidenceReferences(evidence: seq<Evidence>): seq<EvidenceReference> {
    StableSort(ReferenceLeq, Map(ReferenceTo, evidence))
  }

  function ConvertWaiver(w: Waiver): WaiverRecord {
    WaiverRecord(w.id, Target(w.targetKind, w.targetId), Scope(w.scopeRepository, w.scopeWorkUnit, w.scopeHead),
                 w.reason, w.acceptedRisk, Approver(w.approverIdentity, w.approverAuthority),
                 w.issuedAt, w.expiresAt, w.status, w.digest)
  }

  function RevisionBinding(basis: Basis): string {
    if basis.TrustedBase? then SUBJECT_BASE else ""
  }

  function PolicySources(input: BuildInput, baselineDigest: Digest): seq<PolicySource> {
    [PolicySource(LAYER_PROTOCOL_BASELINE, BASELINE_SOURCE, baselineDigest, Untrusted, AdvisoryWorkspace, ""),
     PolicySource(LAYER_PROJECT, input.policy.source, input.policy.digest, input.policy.trust, input.policy.basis,
                  RevisionBinding(input.policy.basis))]
  }

  function ReceiptOf(input: BuildInput, baselineDigest: Digest): Receipt {
    Receipt(
      input.authority, input.subject, input.contract.workUnit,
      input.contract.source, input.contract.digest, input.contract.trust,
      PolicySources(input, baselineDigest), input.policy.digest, input.policy.trust,
      EvidenceReferences(input.evidence),
      input.evaluation.requirements, input.evaluation.findings, Map(ConvertWaiver, input.evaluation.waivers),
      input.evaluation.verdict.verdict, input.evaluation.verdict.decision,
      Verifier(VERIFIER_NAME, input.version, PROTOCOL_VERSION), WholeSeconds(input.evaluatedAt))
  }

  method CollectReferences(evidence: seq<Evidence>) returns (references: seq<EvidenceReference>)
    ensures references == EvidenceReferences(evidence)
  {
    references := [];
    for i := 0 to |evidence|
      invariant references == Map(ReferenceTo, evidence[..i])
    {
      MapSnoc(ReferenceTo, evidence, i);
      references := references + [EvidenceReference(evidence[i].id, evidence[i].digest)];
    }
    assert evidence[..|evidence|] == evidence;
    references := StableSort(ReferenceLeq, references);
  }

  method ConvertWaivers(records: seq<Waiver>) returns (converted: seq<WaiverRecord>)
    ensures converted == Map(ConvertWaiver, records)
  {
    converted := [];
    for i := 0 to |records|
      invariant converted == Map(ConvertWaiver, records[..i])
    {
      MapSnoc(ConvertWaiver, records, i);
      converted := converted + [ConvertWaiver(records[i])];
    }
    assert records[..|records|] == records;
  }

  // ---- semantic checks ----

  predicate UniqueReferences(references: seq<EvidenceReference>) {
    forall i, j :: 0 <= i < j < |references| ==> references[i].id != references[j].id
  }

  /** The recorded pair is what the kernel derives from the receipt's own results and findings. */
  predicate Derived(r: Receipt) {
    && Accepts(r.requirementResults, r.findings)
    && Judge(r.requirementResults, r.findings) == EvaluationResult(r.verdict, r.decision)
  }

  function ReferenceIds(references: seq<EvidenceReference>): set<string> {
    set e | e in references :: e.id
  }

  predicate ResultBound(result: RequirementResult, ids: set<string>) {
    && (forall id :: id in result.evidenceIds ==> id in ids)
    && (result.state.ValidState? ==> result.evidenceIds != [])
  }

  predicate EvidenceBound(results: seq<RequirementResult>, ids: set<string>) {
    forall result :: result in results ==> ResultBound(result, ids)
  }

  /** What one record must satisfy against the result it targets. */
  predicate RecordOk(w: WaiverRecord, result: RequirementResult, repositoryUri: string, workUnitId: string) {
    && result.EstablishedFailure()
    && (w.status.WaiverValid? ==>
          && result.waivable
          && w.scope.repositoryUri == repositoryUri && w.scope.workUnitId == workUnitId
          && w.issuedAt.instant.Some? && w.expiresAt.instant.Some?)
  }

  /** Results by requirement id; the last one wins. */
  function ResultMap(results: seq<RequirementResult>): (m: map<string, RequirementResult>)
    ensures forall id :: id in m ==> m[id] in results && m[id].requirementId == id
    ensures forall r :: r in results ==> r.requirementId in m
  {
    if results == [] then map[]
    else ResultMap(results[..|results| - 1])[results[|results| - 1].requirementId := results[|results| - 1]]
  }

  predicate TargetRecordOk(w: WaiverRecord, m: map<string, RequirementResult>,
                           repositoryUri: string, workUnitId: string)
  {
    && w.target.kind == REQUIREMENT_KIND
    && w.target.id in m
    && RecordOk(w, m[w.target.id], repositoryUri, workUnitId)
  }

  predicate WaiverRecordsOk(r: Receipt) {
    forall w :: w in r.waivers ==>
      TargetRecordOk(w, ResultMap(r.requirementResults), r.subject.repositoryUri, r.workUnit.id)
  }

  predicate BlockingOnlyWhenBlocked(r: Receipt) {
    !r.decision.Blocked? ==> !SomeBlocking(r.findings)
  }

  /** An authoritative receipt is trusted throughout and binds its project layers to the subject's base. */
  predicate AuthorityOk(r: Receipt) {
    r.authority.Authoritative? ==>
      && r.contractTrust.Trusted? && r.policyTrust.Trusted?
      && (forall s :: s in r.policySources && s.layer == LAYER_PROJECT ==> s.revisionBinding == SUBJECT_BASE)
      && exists s :: s in r.policySources && s.layer == LAYER_PROJECT
  }

  predicate VerifierOk(v: Verifier) {
    v.name == VERIFIER_NAME && v.version != "" && v.protocolVersion == PROTOCOL_VERSION
  }

  predicate ReceiptOk(r: Receipt) {
    && UniqueIds(r.requirementResults)
    && Derived(r)
    && UniqueReferences(r.evidence)
    && EvidenceBound(r.requirementResults, ReferenceIds(r.evidence))
    && WaiverRecordsOk(r)
    && BlockingOnlyWhenBlocked(r)
    && AuthorityOk(r)
    && VerifierOk(r.verifier)
    && Writable(r.evaluatedAt)
  }

  method ValidateRequirementUniqueness(results: seq<RequirementResult>) returns (ok: bool)
    ensures ok <==> UniqueIds(results)
  {
    var seen: set<string> := {};
    for i := 0 to |results|
      invariant UniqueIds(results[..i])
      invariant forall id :: id in seen <==> exists j :: 0 <= j < i && results[j].requirementId == id
    {
      if results[i].requirementId in seen {
        return false;
      }
      seen := seen + {results[i].requirementId};
    }
    assert results[..|results|] == results;
    ok := true;
  }

  method IndexReferences(references: seq<EvidenceReference>) returns (ok: bool, ids: set<string>)
    ensures ok <==> UniqueReferences(references)
    ensures ok ==> ids == ReferenceIds(references)
  {
    ids := {};
    for i := 0 to |references|
      invariant UniqueReferences(references[..i])
      invariant ids == ReferenceIds(references[..i])
      invariant forall id :: id in ids <==> exists j :: 0 <= j < i && references[j].id == id
    {
      assert references[..i + 1] == references[..i] + [references[i]];
      if references[i].id in ids {
        return false, ids;
      }
      ids := ids + {references[i].id};
    }
    assert references[..|references|] == references;
    ok := true;
  }

  method ValidateEvidenceBinding(results: seq<RequirementResult>, ids: set<string>) returns (ok: bool)
    ensures ok <==> EvidenceBound(results, ids)
  {
    for i := 0 to |results|
      invariant EvidenceBound(results[..i], ids)
    {
      var result := results[i];
      assert result in results;
      for k := 0 to |result.evidenceIds|
        invariant forall id :: id in result.evidenceIds[..k] ==> id in ids
      {
        assert result.evidenceIds[k] in result.evidenceIds;
        if result.evidenceIds[k] !in ids {
          return false;
        }
      }
      assert result.evidenceIds[..|result.evidenceIds|] == result.evidenceIds;
      if result.state.ValidState? && |result.evidenceIds| == 0 {
        return false;
      }
    }
    assert results[..|results|] == results;
    ok := true;
  }

  method IndexResults(results: seq<RequirementResult>) returns (m: map<string, RequirementResult>)
    ensures m == ResultMap(results)
  {
    m := map[];
    for i := 0 to |results|
      invariant m == ResultMap(results[..i])
    {
      assert results[..i + 1][..i] == results[..i];
      m := m[results[i].requirementId := results[i]];
    }
    assert results[..|results|] == results;
  }

  method ValidateWaiverRecord(w: WaiverRecord, m: map<string, RequirementResult>,
                              repositoryUri: string, workUnitId: string) returns (ok: bool)
    ensures ok <==> TargetRecordOk(w, m, repositoryUri, workUnitId)
  {
    if w.target.kind != REQUIREMENT_KIND || w.target.id !in m {
      return false;
    }
    var result := m[w.target.id];
    if !result.state.ValidState? || !result.outcome.Failed? {
      return false;
    }
    if w.status.WaiverValid? {
      if !result.waivable || w.scope.repositoryUri != repositoryUri || w.scope.workUnitId != workUnitId {
        return false;
      }
      if w.issuedAt.instant.None? || w.expiresAt.instant.None? {
        return false;
      }
    }
    ok := true;
  }

  method ValidateWaiverRecords(records: seq<WaiverRecord>, results: seq<RequirementResult>,
                               repositoryUri: string, workUnitId: string) returns (ok: bool)
    ensures ok <==> forall w :: w in records ==> TargetRecordOk(w, ResultMap(results), repositoryUri, workUnitId)
  {
    var m := IndexResults(results);
    for i := 0 to |records|
      invariant forall w :: w in records[..i] ==> TargetRecordOk(w, m, repositoryUri, workUnitId)
    {
      assert records[i] in records;
      assert records[..i + 1] == records[..i] + [records[i]];
      var recordOk := ValidateWaiverRecord(records[i], m, repositoryUri, workUnitId);
      if !recordOk {
        return false;
      }
    }
    assert records[..|records|] == records;
    ok := true;
  }

  method ValidateAuthority(r: Receipt) returns (ok: bool)
    ensures ok <==> AuthorityOk(r)
  {
    if !r.authority.Authoritative? {
      return true;
    }
    if !r.contractTrust.Trusted? || !r.policyTrust.Trusted? {
      return false;
    }
    var subjectBaseSeen := false;
    for i := 0 to |r.policySources|
      invariant forall s :: s in r.policySources[..i] && s.layer == LAYER_PROJECT ==> s.revisionBinding == SUBJECT_BASE
      invariant subjectBaseSeen <==> exists s :: s in r.policySources[..i] && s.layer == LAYER_PROJECT
    {
      var source := r.policySources[i];
      assert source in r.policySources;
      assert r.policySources[..i + 1] == r.policySources[..i] + [source];
      if source.layer == LAYER_PROJECT {
        if source.revisionBinding != SUBJECT_BASE {
          return false;
        }
        subjectBaseSeen := true;
      }
    }
    assert r.policySources[..|r.policySources|] == r.policySources;
    ok := subjectBaseSeen;
  }

  method CheckNonBlocking(findings: seq<Finding>) returns (ok: bool)
    ensures ok <==> !SomeBlocking(findings)
  {
    for i := 0 to |findings|
      invariant !SomeBlocking(findings[..i])
    {
      assert findings[i] in findings;
      if findings[i].blocking {
        return false;
      }
    }
    assert findings[..|findings|] == findings;
    ok := true;
  }

  method ValidateReceipt(r: Receipt) returns (ok: bool)
    ensures ok <==> ReceiptOk(r)
  {
    var unique := ValidateRequirementUniqueness(r.requirementResults);
    if !unique {
      return false;
    }
    var derived, fault := Kernel.Evaluate(r.requirementResults, r.findings);
    if fault.Some? || derived != EvaluationResult(r.verdict, r.decision) {
      return false;
    }
    var distinct, ids := IndexReferences(r.evidence);
    if !distinct {
      return false;
    }
    var bound := ValidateEvidenceBinding(r.requirementResults, ids);
    if !bound {
      return false;
    }
    var records := ValidateWaiverRecords(r.waivers, r.requirementResults, r.subject.repositoryUri, r.workUnit.id);
    if !records {
      return false;
    }
    if r.decision != Blocked {
      var nonBlocking := CheckNonBlocking(r.findings);
      if !nonBlocking {
        return false;
      }
    }
    var authority := ValidateAuthority(r);
    ok := authority && VerifierOk(r.verifier) && Writable(r.evaluatedAt);
  }

  /** Builds a receipt, or refuses: every check must pass before one is returned. */
  method Build(input: BuildInput, baselineDigest: Digest) returns (r: Option<Receipt>)
    ensures r.Some? <==> BuildInputOk(input) && ReceiptOk(ReceiptOf(input, baselineDigest))
    ensures r.Some? ==> r.value == ReceiptOf(input, baselineDigest)
  {
    var ok := ValidateBuildInput(input);
    if !ok {
      return None;
    }
    var references := CollectReferences(input.evidence);
    var records := ConvertWaivers(input.evaluation.waivers);
    var built := ReceiptOf(input, baselineDigest).(evidence := references, waivers := records);
    ok := ValidateReceipt(built);
    r := if ok then Some(built) else None;
  }
}
