/** What each check of the pipeline refuses, defect by defect, and hence when a run emits nothing. */
module Refusals {
  import opened Domain
  import opened Evaluation
  import opened Gates
  import opened Identity
  import opened Inputs
  import opened Kernel
  import opened Pipeline
  import opened ReceiptLaws
  import opened Receipts
  import opened Seqs
  import opened Text
  import L = Loaders

  // ---- defects ----

  predicate BadLength(s: string, max: nat) { |s| == 0 || |s| > max }

  predicate OnlySpace(s: string) { forall c :: c in s ==> c == ' ' || '\t' <= c <= '\r' }

  predicate BadText(s: string, max: nat) { |s| > max || OnlySpace(s) }

  predicate Repeats(items: seq<string>) { exists i, j :: 0 <= i < j < |items| && items[i] == items[j] }

  predicate SomeBadId(ids: seq<string>) { exists id :: id in ids && !CanonicalIdentifier(id) }

  predicate BadDigest(d: Digest) { d.algorithm != "sha256" || !DigestValue(d.value) }

  // ---- evidence files ----

  predicate BadEnvelope(e: L.Envelope) {
    || e.schemaVersion != "assurectl/evidence-envelope/v0"
    || !CanonicalIdentifier(e.id)
    || BadLength(e.evidenceType, 128)
    || BadLength(e.subjectRepository, 1024) || !ObjectId(e.subjectRevision)
    || BadLength(e.producerType, 128) || BadLength(e.producerIdentity, 1024) || BadLength(e.commandId, 256)
    || (e.outcome != Passed && e.outcome != Failed && e.outcome != Errored)
    || BadLength(e.artifactUri, 2048) || BadDigest(e.artifactDigest) || BadLength(e.mediaType, 256)
    || e.startedAt.None? || e.finishedAt.None? || e.finishedAt.value < e.startedAt.value
  }

  /** No envelope, a bad one, one about another repository, or an artifact that is not its own or out of reach. */
  predicate BadFile(f: L.EvidenceFile, subject: Subject) {
    || f.envelope.None? || BadEnvelope(f.envelope.value)
    || Canonicalize(f.envelope.value.subjectRepository) != Some(subject.repositoryUri)
    || !f.portable || !f.artifactMatches
  }

  /** Two files have envelopes with one id or one artifact URI. */
  predicate SharedFile(a: L.EvidenceFile, b: L.EvidenceFile) {
    && a.envelope.Some? && b.envelope.Some?
    && (a.envelope.value.id == b.envelope.value.id || a.envelope.value.artifactUri == b.envelope.value.artifactUri)
  }

  predicate BadEvidence(files: seq<L.EvidenceFile>, subject: Subject) {
    || Canonicalize(subject.repositoryUri) != Some(subject.repositoryUri) || !ObjectId(subject.headRevision)
    || (exists f :: f in files && BadFile(f, subject))
    || exists i, j :: 0 <= i < j < |files| && SharedFile(files[i], files[j])
  }

  lemma EnvelopeRefused(e: L.Envelope)
    ensures !L.EnvelopeOk(e) <==> BadEnvelope(e)
  {
  }

  lemma FileRefused(f: L.EvidenceFile, subject: Subject)
    ensures !L.Loads(f, subject) <==> BadFile(f, subject)
  {
    if f.envelope.Some? {
      EnvelopeRefused(f.envelope.value);
    }
  }

  /** The evidence of a subject is refused as a whole over any one defect. */
  lemma EvidenceRefused(files: seq<L.EvidenceFile>, subject: Subject)
    ensures !L.EvidenceLoads(files, subject) <==> BadEvidence(files, subject)
  {
    forall f ensures !L.Loads(f, subject) <==> BadFile(f, subject) {
      FileRefused(f, subject);
    }
    FilesRefused(files, subject);
  }

  lemma FilesRefused(files: seq<L.EvidenceFile>, subject: Subject)
    ensures !L.EvidenceLoads(files, subject) <==> (
      || Canonicalize(subject.repositoryUri) != Some(subject.repositoryUri) || !ObjectId(subject.headRevision)
      || (exists f :: f in files && !L.Loads(f, subject))
      || exists i, j :: 0 <= i < j < |files| && SharedFile(files[i], files[j]))
  {
    if forall f :: f in files ==> L.Loads(f, subject) {
      forall i | 0 <= i < |files| ensures L.Decodes(files[i]) {
        assert files[i] in files;
      }
    }
  }

  // ---- waiver records ----

  predicate BadRecord(w: Waiver, digestOf: Waiver -> Digest) {
    || !CanonicalIdentifier(w.id) || w.targetKind != "REQUIREMENT" || !CanonicalIdentifier(w.targetId)
    || OnlySpace(w.scopeRepository) || !CanonicalIdentifier(w.scopeWorkUnit)
    || (w.scopeHead != "" && !ObjectId(w.scopeHead))
    || BadText(w.reason, 1024) || BadText(w.acceptedRisk, 1024)
    || OnlySpace(w.approverIdentity) || OnlySpace(w.approverAuthority)
    || w.issuedAt.instant.None? || w.expiresAt.instant.None? || w.expiresAt.instant.value < w.issuedAt.instant.value
    || (w.status != WaiverValid && w.status != WaiverInvalid)
    || BadDigest(w.digest) || w.digest != digestOf(w.(digest := Digest("", "")))
  }

  predicate BadRecords(records: seq<Waiver>, digestOf: Waiver -> Digest) {
    || (exists w :: w in records && BadRecord(w, digestOf))
    || exists i, j :: 0 <= i < j < |records| && records[i].id == records[j].id
  }

  lemma RecordRefused(w: Waiver, digestOf: Waiver -> Digest)
    ensures !(L.RecordOk(w) && w.digest == digestOf(L.Undigested(w))) <==> BadRecord(w, digestOf)
  {
  }

  /** Waiver records are refused as a whole over any one defect. */
  lemma RecordsRefused(records: seq<Waiver>, digestOf: Waiver -> Digest)
    ensures !L.RecordsLoad(records, digestOf) <==> BadRecords(records, digestOf)
  {
    forall w ensures !(L.RecordOk(w) && w.digest == digestOf(L.Undigested(w))) <==> BadRecord(w, digestOf) {
      RecordRefused(w, digestOf);
    }
  }

  // ---- gate documents ----

  predicate BadCriterion(c: Criterion) {
    || !CanonicalIdentifier(c.id) || BadLength(c.statement, 4096)
    || |c.requirements| == 0 || SomeBadId(c.requirements) || Repeats(c.requirements)
  }

  predicate BadContract(d: ContractDocument) {
    || d.schemaVersion != "assurectl/verification-contract/v0"
    || BadLength(d.workUnit.id, 256) || BadLength(d.workUnit.objective, 4096)
    || d.workUnit.kind !in ["pull_request", "commit", "release_candidate", "api_migration", "sdk_migration",
                            "framework_upgrade", "dependency_upgrade", "security_remediation"]
    || |d.criteria| == 0 || (exists c :: c in d.criteria && BadCriterion(c))
    || exists i, j :: 0 <= i < j < |d.criteria| && d.criteria[i].id == d.criteria[j].id
  }

  predicate BadRequirement(r: Requirement) {
    || !CanonicalIdentifier(r.id) || BadLength(r.evidenceType, 128)
    || |r.allowedProducers| == 0 || (exists p :: p in r.allowedProducers && BadLength(p, 128))
    || Repeats(r.allowedProducers)
    || (r.maxAgeSeconds.Some? && r.maxAgeSeconds.value < 0)
  }

  predicate SharedId(rs: seq<Requirement>) { exists i, j :: 0 <= i < j < |rs| && rs[i].id == rs[j].id }

  predicate BadPolicy(d: PolicyDocument) {
    || d.schemaVersion != "assurectl/policy/v0"
    || |d.requirements| == 0 || (exists r :: r in d.requirements && BadRequirement(r)) || SharedId(d.requirements)
  }

  lemma CriterionRefused(c: Criterion)
    ensures !CriterionOk(c) <==> BadCriterion(c)
  {
  }

  /** A contract is refused over any one defect. */
  lemma ContractRefused(d: ContractDocument)
    ensures !ContractDocumentOk(d) <==> BadContract(d)
  {
    forall c ensures !CriterionOk(c) <==> BadCriterion(c) {
      CriterionRefused(c);
    }
  }

  lemma RequirementRefused(r: Requirement)
    ensures !(PolicyRequirementOk(r) && CanonicalIdentifier(r.id)) <==> BadRequirement(r)
  {
  }

  /** A policy is refused over any one defect. */
  lemma PolicyRefused(d: PolicyDocument)
    ensures !PolicyDocumentOk(d) <==> BadPolicy(d)
  {
    forall r ensures !(PolicyRequirementOk(r) && CanonicalIdentifier(r.id)) <==> BadRequirement(r) {
      RequirementRefused(r);
    }
  }

  /** No revision that could be read. */
  predicate BadOrigin(origin: Origin) { origin.Base? && !ObjectId(origin.revision) }

  lemma ContractFileRefused(file: GateFile<ContractDocument>, origin: Origin)
    ensures ContractAt(file, origin).None? <==>
      BadOrigin(origin) || file.document.None? || BadContract(file.document.value)
  {
    if file.document.Some? {
      ContractRefused(file.document.value);
    }
  }

  lemma PolicyFileRefused(file: GateFile<PolicyDocument>, origin: Origin)
    ensures PolicyAt(file, origin).None? <==>
      BadOrigin(origin) || file.document.None? || BadPolicy(file.document.value)
  {
    if file.document.Some? {
      PolicyRefused(file.document.value);
    }
  }

  /** The two gate files of one place: unreadable, undecodable, defective, or at a base that is no object id. */
  predicate BadGates(gates: GateFiles, origin: Origin) {
    || BadOrigin(origin)
    || gates.contract.document.None? || BadContract(gates.contract.document.value)
    || gates.policy.document.None? || BadPolicy(gates.policy.document.value)
  }

  lemma GatesRefused(gates: GateFiles, origin: Origin)
    ensures ContractAt(gates.contract, origin).None? || PolicyAt(gates.policy, origin).None? <==>
      BadGates(gates, origin)
  {
    ContractFileRefused(gates.contract, origin);
    PolicyFileRefused(gates.policy, origin);
  }

  // ---- the evaluator's input ----

  /** The evaluator takes no zero instant, no gate trusted for no reason, and no waivers without a subject. */
  lemma InputRefused(input: Input)
    ensures !InputOk(input) <==> (
      || input.evaluatedAt == 0
      || input.contract.schemaVersion != "assurectl/verification-contract/v0" || BadDigest(input.contract.digest)
      || (input.contract.trust != Untrusted && input.contract.trust != Trusted)
      || input.policy.schemaVersion != "assurectl/policy/v0" || BadDigest(input.policy.digest)
      || (input.policy.trust, input.policy.basis) !in [(Untrusted, AdvisoryWorkspace), (Trusted, TrustedBase)]
      || (exists r :: r in input.policy.requirements && !CanonicalIdentifier(r.id))
      || SharedId(input.policy.requirements)
      || (exists c :: c in input.contract.criteria && SomeBadId(c.requirements))
      || (input.waivers != [] && (
            || Canonicalize(input.subject.repositoryUri) != Some(input.subject.repositoryUri)
            || !ObjectId(input.subject.headRevision))))
  {
  }

  // ---- the kernel ----

  /** The kernel takes no unlisted value, no VALID result without evidence, and no waiver but of a failure. */
  lemma ResultRefused(r: RequirementResult)
    ensures !RequirementOk(r) <==> (
      || !CanonicalIdentifier(r.requirementId) || SomeBadId(r.evidenceIds) || Repeats(r.evidenceIds)
      || r.state.OtherState? || r.outcome.OtherOutcome? || r.waiverStatus.OtherWaiverStatus?
      || (r.state == ValidState && (|r.evidenceIds| == 0 || r.outcome == NoOutcome))
      || (r.waiverStatus == WaiverValid && (!r.waivable || r.state != ValidState || r.outcome != Failed)))
  {
  }

  lemma FindingRefused(f: Finding)
    ensures !FindingOk(f) <==> (
      || |f.code| == 0 || f.category.OtherCategory? || f.severity.OtherSeverity? || f.message == NoMessage
      || (|f.requirementId| != 0 && !CanonicalIdentifier(f.requirementId))
      || SomeBadId(f.evidenceIds) || Repeats(f.evidenceIds))
  {
  }

  /** It takes nothing with a single bad result or finding, or with two results for one requirement. */
  lemma KernelRefused(rs: seq<RequirementResult>, fs: seq<Finding>)
    ensures !Accepts(rs, fs) <==> (
      || (exists r :: r in rs && !RequirementOk(r)) || (exists f :: f in fs && !FindingOk(f))
      || exists i, j :: 0 <= i < j < |rs| && rs[i].requirementId == rs[j].requirementId)
  {
  }

  // ---- the builder ----

  ghost predicate NamedAtBase(source: string, document: string) {
    exists id :: ObjectId(id) && source == "base:" + id + document
  }

  /** The source text is a gate document's path behind an object id. */
  ghost predicate FromBase(source: string) {
    NamedAtBase(source, ":.assurectl/policy.json") || NamedAtBase(source, ":.assurectl/contract.json")
  }

  /** An authoritative claim over gates that were not both read, trusted, at a base revision. */
  ghost predicate Overclaims(b: BuildInput) {
    || b.contract.trust != Trusted || !FromBase(b.contract.source)
    || b.policy.trust != Trusted || b.policy.basis != TrustedBase || !FromBase(b.policy.source)
  }

  lemma NamesExactly(source: string, document: string)
    ensures SourceNames(source, document) <==> NamedAtBase(source, document)
  {
    if SourceNames(source, document) {
      var id := source[|"base:"|..|source| - |document|];
      assert source == "base:" + id + document;
    }
    if id :| ObjectId(id) && source == "base:" + id + document {
      NamesBack(id, document);
    }
  }

  lemma NamesBack(id: string, document: string)
    requires ObjectId(id)
    ensures SourceNames("base:" + id + document, document)
  {
    var source := "base:" + id + document;
    assert source[|"base:"|..|source| - |document|] == id;
    assert source[|source| - |document|..] == document;
  }

  lemma BaseSourceExactly(source: string)
    ensures IsBaseSource(source) <==> FromBase(source)
  {
    NamesExactly(source, ":.assurectl/policy.json");
    NamesExactly(source, ":.assurectl/contract.json");
  }

  /** The builder takes no claim its input does not support, no zero instant, and no evidence id with two digests. */
  lemma BuildRefused(b: BuildInput)
    ensures !BuildInputOk(b) <==> (
      || (b.authority == Advisory && b.carriesCi) || (b.authority == CiAsserted && !b.carriesCi)
      || (b.authority == Authoritative && Overclaims(b)) || b.authority.OtherTier?
      || b.evaluatedAt == 0
      || exists d, e :: d in b.evidence && e in b.evidence && d.id == e.id && d.digest != e.digest)
  {
    BaseSourceExactly(b.contract.source);
    BaseSourceExactly(b.policy.source);
    DigestsExactly(b.evidence);
  }

  lemma DigestsExactly(evidence: seq<Evidence>)
    ensures !DigestsAgree(evidence) <==>
      exists d, e :: d in evidence && e in evidence && d.id == e.id && d.digest != e.digest
  {
    if d, e :| d in evidence && e in evidence && d.id == e.id && d.digest != e.digest {
      var i :| 0 <= i < |evidence| && evidence[i] == d;
      var j :| 0 <= j < |evidence| && evidence[j] == e;
      assert i < j || j < i;
    }
  }

  /** A record of something else than a failed requirement, or a VALID one that this receipt cannot hold. */
  predicate BadWaiverRecord(w: WaiverRecord, r: Receipt) {
    || w.target.kind != "REQUIREMENT"
    || (forall x :: x in r.requirementResults ==>
          x.requirementId != w.target.id || x.state != ValidState || x.outcome != Failed)
    || (w.status == WaiverValid && (
          || (exists x :: x in r.requirementResults && x.requirementId == w.target.id && !x.waivable)
          || w.scope.repositoryUri != r.subject.repositoryUri || w.scope.workUnitId != r.workUnit.id
          || w.issuedAt.instant.None? || w.expiresAt.instant.None?))
  }

  lemma WaiverRecordRefused(w: WaiverRecord, r: Receipt)
    requires UniqueIds(r.requirementResults)
    ensures !TargetRecordOk(w, ResultMap(r.requirementResults), r.subject.repositoryUri, r.workUnit.id)
       <==> BadWaiverRecord(w, r)
  {
    var results := r.requirementResults;
    forall x | x in results && x.requirementId == w.target.id
      ensures w.target.id in ResultMap(results) && ResultMap(results)[w.target.id] == x
    {
      ResultMapUnique(results, x);
    }
  }

  predicate BadAuthority(r: Receipt) {
    || r.contractTrust != Trusted || r.policyTrust != Trusted
    || (exists s :: s in r.policySources && s.layer == "project" && s.revisionBinding != "SUBJECT_BASE")
    || forall s :: s in r.policySources ==> s.layer != "project"
  }

  predicate BadBinding(x: RequirementResult, evidence: seq<EvidenceReference>) {
    || (x.state == ValidState && |x.evidenceIds| == 0)
    || exists id :: id in x.evidenceIds && forall e :: e in evidence ==> e.id != id
  }

  lemma BindingRefused(x: RequirementResult, evidence: seq<EvidenceReference>)
    ensures !ResultBound(x, ReferenceIds(evidence)) <==> BadBinding(x, evidence)
  {
  }

  lemma BindingsRefused(results: seq<RequirementResult>, evidence: seq<EvidenceReference>)
    ensures !EvidenceBound(results, ReferenceIds(evidence)) <==> exists x :: x in results && BadBinding(x, evidence)
  {
    forall x ensures !ResultBound(x, ReferenceIds(evidence)) <==> BadBinding(x, evidence) {
      BindingRefused(x, evidence);
    }
  }

  lemma RecordsChecked(r: Receipt)
    requires UniqueIds(r.requirementResults)
    ensures !WaiverRecordsOk(r) <==> exists w :: w in r.waivers && BadWaiverRecord(w, r)
  {
    forall w ensures !TargetRecordOk(w, ResultMap(r.requirementResults), r.subject.repositoryUri, r.workUnit.id)
                <==> BadWaiverRecord(w, r)
    {
      WaiverRecordRefused(w, r);
    }
  }

  lemma ProvenanceRefused(r: Receipt)
    ensures !(AuthorityOk(r) && VerifierOk(r.verifier)) <==> (
      || (r.authority == Authoritative && BadAuthority(r))
      || r.verifier.name != "assurectl" || |r.verifier.version| == 0 || r.verifier.protocolVersion != "v0")
  {
  }

  predicate TwoResults(rs: seq<RequirementResult>) {
    exists i, j :: 0 <= i < j < |rs| && rs[i].requirementId == rs[j].requirementId
  }

  predicate TwoReferences(s: seq<EvidenceReference>) { exists i, j :: 0 <= i < j < |s| && s[i].id == s[j].id }

  /** Any one of these, in whatever receipt, keeps it from being emitted. */
  lemma ReceiptRefused(r: Receipt)
    ensures !ReceiptOk(r) <==> (
      || TwoResults(r.requirementResults) || TwoReferences(r.evidence)
      || !Accepts(r.requirementResults, r.findings)
      || Judge(r.requirementResults, r.findings) != EvaluationResult(r.verdict, r.decision)
      || (exists x :: x in r.requirementResults && BadBinding(x, r.evidence))
      || (exists w :: w in r.waivers && BadWaiverRecord(w, r))
      || (r.decision != Blocked && exists f :: f in r.findings && f.blocking)
      || (r.authority == Authoritative && BadAuthority(r))
      || r.verifier.name != "assurectl" || |r.verifier.version| == 0 || r.verifier.protocolVersion != "v0"
      || !Writable(r.evaluatedAt))
  {
    BindingsRefused(r.requirementResults, r.evidence);
    ProvenanceRefused(r);
    if UniqueIds(r.requirementResults) {
      RecordsChecked(r);
    }
  }

  // ---- a run that emits nothing ----

  /** No base, no instant, no version, an unwritable year, or a CI context about something else. */
  predicate BadOptions(run: Run) {
    || OnlySpace(run.baseRef) || run.evaluatedAt == 0 || run.version == ""
    || run.evaluatedAt < -366 * 86_400_000_000_000
    || run.evaluatedAt >= (365 * 9999 + 9999 / 4 - 9999 / 100 + 9999 / 400) * 86_400_000_000_000
    || (run.ci.Some? && run.ci.value.sha != run.subject.headRevision)
    || (run.ci.Some? && Canonicalize("github.com/" + run.ci.value.repository) != Some(run.subject.repositoryUri))
  }

  predicate BadWaivers(file: L.WaiversFile, digestOf: Waiver -> Digest) {
    match file
    case Missing => false
    case Unreadable => true
    case WaiversFile(version, records) => version != "assurectl/waivers/v0" || BadRecords(records, digestOf)
  }

  lemma OptionsRefused(run: Run)
    ensures !OptionsOk(run) <==> BadOptions(run)
  {
    WritableExactly(run.evaluatedAt);
    assert CI_HOST == "github.com/";
  }

  /** The first writable instant is the start of the year 0, the end is that of the year 9999. */
  lemma WritableExactly(at: int)
    ensures Writable(WholeSeconds(at)) <==>
      -366 * 86_400_000_000_000 <= at < (365 * 9999 + 9999 / 4 - 9999 / 100 + 9999 / 400) * 86_400_000_000_000
  {
  }

  lemma LoadRefused(run: Run, digestOf: Waiver -> Digest)
    ensures !RunLoads(run, digestOf) <==> BadEvidence(run.files, run.subject) || BadWaivers(run.waivers, digestOf)
  {
    EvidenceRefused(run.files, run.subject);
    if run.waivers.WaiversFile? {
      RecordsRefused(run.waivers.records, digestOf);
    }
  }

  /** The gate files are defective where the run reads them. */
  predicate BadGatesRead(run: Run) {
    if run.trustedBase then BadGates(run.baseGates, Base(run.subject.baseRevision))
    else BadGates(run.workspaceGates, Workspace)
  }

  lemma GatesReadRefused(run: Run)
    ensures !GatesLoad(run) <==> BadGatesRead(run)
  {
    if run.trustedBase {
      GatesRefused(run.baseGates, Base(run.subject.baseRevision));
    } else {
      GatesRefused(run.workspaceGates, Workspace);
    }
  }

  /** Some record's target is no requirement, or one whose evidence did not fail. */
  ghost predicate Misaimed(run: Run)
    requires GatesLoad(run) && L.AllDecode(run.files)
  {
    exists w :: w in RecordsOf(run.waivers) && forall r :: r in OutputsOf(InputOf(run)).requirements ==>
      r.requirementId != w.targetId || r.state != ValidState || r.outcome != Failed
  }

  lemma TargetsRefused(run: Run)
    requires GatesLoad(run) && L.AllDecode(run.files)
    ensures !RecordsTarget(run) <==> Misaimed(run)
  {
  }

  /** A run emits nothing exactly over a defect in its options or documents, or a record without a failure. */
  lemma RunRefused(run: Run, digestOf: Waiver -> Digest)
    ensures !RunEmits(run, digestOf) <==> (
      || BadOptions(run) || BadGatesRead(run)
      || BadEvidence(run.files, run.subject) || BadWaivers(run.waivers, digestOf)
      || (GatesLoad(run) && L.AllDecode(run.files) && Misaimed(run)))
  {
    OptionsRefused(run);
    GatesReadRefused(run);
    LoadRefused(run, digestOf);
    if GatesLoad(run) && L.AllDecode(run.files) {
      TargetsRefused(run);
    }
  }
}
