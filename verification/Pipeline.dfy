/** The pipeline from loaded documents to a receipt, and what its loaders guarantee downstream. */
module Pipeline {
  import opened DecisionLaws
  import opened Domain
  import opened Evaluation
  import opened Facts
  import opened Gates
  import opened Identity
  import opened IdentityFixpoints
  import opened Inputs
  import opened Monotonicity
  import opened ReceiptContents
  import opened ReceiptLaws
  import opened Receipts
  import opened RequirementLaws
  import opened Seqs
  import opened Text
  import opened Totality
  import L = Loaders

  // ---- what the loaders guarantee ----

  /** Loaded evidence has unique canonical ids and known outcomes, and each entry is bound by its revision. */
  lemma LoadedEvidence(evidence: seq<Evidence>, files: seq<L.EvidenceFile>, subject: Subject)
    requires L.EvidenceLoads(files, subject) && L.LoadedFrom(evidence, files, subject)
    ensures UniqueEvidence(evidence)
    ensures forall e :: e in evidence ==> CanonicalIdentifier(e.id) && e.outcome.Known()
    ensures |evidence| == |files|
    ensures forall i :: 0 <= i < |files| ==>
      var (e, x) := (evidence[i], files[i].envelope.value); (
        && e.id == x.id && e.evidenceType == x.evidenceType && e.producerType == x.producerType
        && e.outcome == x.outcome && x.finishedAt == Some(e.finishedAt) && e.digest == files[i].digest
        && (e.binding.Exact? <==> x.subjectRevision == subject.headRevision))
  {
  }

  /** Evaluating what the loaders return meets no refusal: the kernel accepts every normalized result. */
  lemma LoadedInputAccepted(input: Input, files: seq<L.EvidenceFile>, digestOf: Waiver -> Digest)
    requires L.EvidenceLoads(files, input.subject) && L.LoadedFrom(input.evidence, files, input.subject)
    requires L.RecordsLoad(input.waivers, digestOf)
    requires input.evaluatedAt != 0 && ContractOk(input.contract) && PolicyOk(input.policy)
    requires RequirementIdsOk(input.policy.requirements) && CriteriaOk(input.contract.criteria)
    ensures InputOk(input) && KernelAccepts(input)
  {
    LoadedEvidence(input.evidence, files, input.subject);
    KernelTotality(input);
  }

  /**
   A subject the resolver canonicalized can carry evidence and waivers exactly
   when its identity is a fixpoint and its head is an object id: an exceptional
   identity is refused by the evidence loader and, with waivers, by the evaluator.
   */
  lemma ResolvedSubjectExactly(raw: string, subject: Subject, files: seq<L.EvidenceFile>)
    requires Canonicalize(raw) == Some(subject.repositoryUri)
    ensures ResolvedSubject(subject) <==>
      (HasPrefix(raw, LOCAL_PREFIX) || !Exceptional(subject.repositoryUri)) && ObjectId(subject.headRevision)
    ensures !HasPrefix(raw, LOCAL_PREFIX) && Exceptional(subject.repositoryUri) ==> !L.EvidenceLoads(files, subject)
  {
    Fixpoints(raw);
  }

  // ---- one run ----

  /** What the CI runner asserts of itself. */
  datatype Ci = Ci(repository: string, sha: string)

  /** A run: the caller's options, the resolved subject, and the documents it can read. */
  datatype Run = Run(
    baseRef: string,
    trustedBase: bool,
    ci: Option<Ci>,
    subject: Subject,
    dirty: bool,
    localOnly: bool,
    workspaceGates: GateFiles,
    baseGates: GateFiles,
    files: seq<L.EvidenceFile>,
    waivers: L.WaiversFile,
    evaluatedAt: int,
    version: string)

  /** The strongest tier the options earn: the trusted base dominates a CI context. */
  function TierOf(run: Run): Tier {
    if run.trustedBase then Authoritative else if run.ci.Some? then CiAsserted else Advisory
  }

  const CI_HOST := "github.com/"

  /** A CI context, if there is one, agrees with the resolved subject. */
  predicate CiMatches(run: Run) {
    match run.ci
    case None => true
    case Some(ci) =>
      Canonicalize(CI_HOST + ci.repository) == Some(run.subject.repositoryUri) && ci.sha == run.subject.headRevision
  }

  function OriginOf(run: Run): Origin {
    if run.trustedBase then Base(run.subject.baseRevision) else Workspace
  }

  function GatesOf(run: Run): GateFiles { if run.trustedBase then run.baseGates else run.workspaceGates }

  predicate GatesLoad(run: Run) {
    ContractAt(GatesOf(run).contract, OriginOf(run)).Some? && PolicyAt(GatesOf(run).policy, OriginOf(run)).Some?
  }

  function ContractOf(run: Run): Contract
    requires GatesLoad(run)
  {
    ContractAt(GatesOf(run).contract, OriginOf(run)).value
  }

  function PolicyOf(run: Run): Policy
    requires GatesLoad(run)
  {
    PolicyAt(GatesOf(run).policy, OriginOf(run)).value
  }

  function SubjectFinding(code: string, wording: string): Finding {
    Finding(code, SubjectCategory, Warning, "", [], Message(wording, []), false)
  }

  const DIRTY_FINDING := SubjectFinding("SUBJECT_DIRTY_WORKTREE", "the worktree has uncommitted changes")

  const LOCAL_ONLY_FINDING := SubjectFinding("SUBJECT_LOCAL_ONLY", "the repository identity is local-only")

  /** Resolver facts, as findings that never block. */
  function Diagnostics(run: Run): seq<Finding> {
    (if run.dirty then [DIRTY_FINDING] else []) + (if run.localOnly then [LOCAL_ONLY_FINDING] else [])
  }

  lemma DiagnosticsNeverBlock(run: Run)
    ensures Diagnostic(Diagnostics(run))
  {
  }

  function EvidenceOf(files: seq<L.EvidenceFile>, subject: Subject): (evidence: seq<Evidence>)
    requires L.AllDecode(files)
    ensures L.LoadedFrom(evidence, files, subject)
  {
    var evidence := seq(|files|, i requires 0 <= i < |files| => L.ToEvidence(subject)(files[i]));
    assert forall i :: 0 <= i < |files| ==> L.LoadedAs(evidence[i], files[i], subject) by {
      forall i | 0 <= i < |files| ensures L.LoadedAs(evidence[i], files[i], subject) {
        L.LoadedAsFile(files[i], subject);
      }
    }
    evidence
  }

  function RecordsOf(file: L.WaiversFile): seq<Waiver> {
    if file.WaiversFile? then file.records else []
  }

  /** Evidence and waivers load. */
  predicate RunLoads(run: Run, digestOf: Waiver -> Digest) {
    && L.EvidenceLoads(run.files, run.subject)
    && !run.waivers.Unreadable?
    && (run.waivers.WaiversFile? ==>
          run.waivers.schemaVersion == L.WAIVERS_SCHEMA && L.RecordsLoad(run.waivers.records, digestOf))
  }

  function InputOf(run: Run): Input
    requires GatesLoad(run) && L.AllDecode(run.files)
  {
    Input(ContractOf(run), PolicyOf(run), EvidenceOf(run.files, run.subject), run.subject, RecordsOf(run.waivers),
          run.evaluatedAt)
  }

  function BuildOf(run: Run): BuildInput
    requires GatesLoad(run) && L.AllDecode(run.files)
  {
    BuildFor(InputOf(run), Diagnostics(run), TierOf(run), run.ci.Some?, run.version)
  }

  method MatchCi(run: Run) returns (ok: bool)
    ensures ok <==> CiMatches(run)
  {
    if run.ci.Some? {
      var canonical := Canonicalize(CI_HOST + run.ci.value.repository);
      if canonical != Some(run.subject.repositoryUri) || run.ci.value.sha != run.subject.headRevision {
        return false;
      }
    }
    ok := true;
  }

  /** Loads the gate documents from the base or from the workspace, both or neither. */
  method LoadGates(run: Run) returns (gates: Option<(Contract, Policy)>)
    ensures gates.Some? <==> GatesLoad(run)
    ensures gates.Some? ==> gates.value == (ContractOf(run), PolicyOf(run))
  {
    var contract := LoadContract(GatesOf(run).contract, OriginOf(run));
    if contract.None? {
      return None;
    }
    var policy := LoadPolicy(GatesOf(run).policy, OriginOf(run));
    if policy.None? {
      return None;
    }
    gates := Some((contract.value, policy.value));
  }

  /** Loads evidence and waivers, both or neither. */
  method LoadInput(run: Run, contract: Contract, policy: Policy, digestOf: Waiver -> Digest)
    returns (input: Option<Input>)
    requires GatesLoad(run) && contract == ContractOf(run) && policy == PolicyOf(run)
    ensures input.Some? <==> RunLoads(run, digestOf)
    ensures input.Some? ==> L.AllDecode(run.files) && input.value == InputOf(run)
  {
    var evidence := L.LoadEvidence(run.files, run.subject);
    if evidence.None? {
      return None;
    }
    var records := L.LoadWaivers(run.waivers, digestOf);
    if records.None? {
      return None;
    }
    assert evidence.value == EvidenceOf(run.files, run.subject);
    input := Some(Input(contract, policy, evidence.value, run.subject, records.value, run.evaluatedAt));
  }

  method AppendDiagnostics(run: Run, findings: seq<Finding>) returns (extended: seq<Finding>)
    ensures extended == findings + Diagnostics(run)
  {
    extended := findings;
    if run.dirty {
      extended := extended + [DIRTY_FINDING];
    }
    if run.localOnly {
      extended := extended + [LOCAL_ONLY_FINDING];
    }
  }

  /** Hands the evaluation, with the resolver's facts appended, to the builder. */
  method BuildRun(run: Run, input: Input, outputs: Outputs, baseline: Digest) returns (r: Option<Receipt>)
    requires GatesLoad(run) && L.AllDecode(run.files) && input == InputOf(run) && outputs == OutputsOf(input)
    ensures r.Some? <==> BuildInputOk(BuildOf(run)) && ReceiptOk(ReceiptOf(BuildOf(run), baseline))
    ensures r.Some? ==> r.value == ReceiptOf(BuildOf(run), baseline)
  {
    var findings := AppendDiagnostics(run, outputs.findings);
    var build := BuildInput(TierOf(run), run.subject, input.contract, input.policy, input.evidence,
                            outputs.(findings := findings), run.ci.Some?, run.evaluatedAt, run.version);
    assert build == BuildOf(run);
    r := Receipts.Build(build, baseline);
  }

  /** Everything a run needs besides its documents. */
  predicate OptionsOk(run: Run) {
    && !Blank(run.baseRef) && run.evaluatedAt != 0 && CiMatches(run)
    && run.version != "" && Writable(WholeSeconds(run.evaluatedAt))
  }

  /** Every record targets an established failure. */
  predicate RecordsTarget(run: Run)
    requires GatesLoad(run) && L.AllDecode(run.files)
  {
    forall w :: w in RecordsOf(run.waivers) ==> TargetsFailure(w, OutputsOf(InputOf(run)).requirements)
  }

  /** Every step of the run succeeds. */
  predicate RunEmits(run: Run, digestOf: Waiver -> Digest) {
    OptionsOk(run) && GatesLoad(run) && RunLoads(run, digestOf) && RecordsTarget(run)
  }

  lemma LoadedGatesOk(run: Run)
    requires GatesLoad(run)
    ensures ContractOk(ContractOf(run)) && CriteriaOk(ContractOf(run).criteria)
    ensures PolicyOk(PolicyOf(run)) && RequirementIdsOk(PolicyOf(run).requirements) && PolicyOf(run).requirements != []
  {
    LoadedContractOk(GatesOf(run).contract, OriginOf(run));
    LoadedPolicyOk(GatesOf(run).policy, OriginOf(run));
  }

  /** The evaluator refuses nothing that loads. */
  lemma RunAccepted(run: Run, digestOf: Waiver -> Digest)
    requires GatesLoad(run) && RunLoads(run, digestOf) && run.evaluatedAt != 0
    ensures InputOk(InputOf(run)) && KernelAccepts(InputOf(run))
  {
    LoadedGatesOk(run);
    LoadedInputAccepted(InputOf(run), run.files, digestOf);
  }

  /** The tier a run claims is always one its documents and context support. */
  lemma ProvenanceHolds(run: Run)
    requires GatesLoad(run) && L.AllDecode(run.files)
    ensures ProvenanceOk(BuildOf(run))
  {
    ProvenanceExactly(BuildOf(run), GatesOf(run), OriginOf(run));
  }

  lemma RunAgreement(run: Run, digestOf: Waiver -> Digest, baseline: Digest)
    requires GatesLoad(run) && RunLoads(run, digestOf)
    requires InputOk(InputOf(run)) && KernelAccepts(InputOf(run))
    ensures BuildInputOk(BuildOf(run)) && ReceiptOk(ReceiptOf(BuildOf(run), baseline)) <==> (
      && ProvenanceOk(BuildOf(run)) && run.version != "" && Writable(WholeSeconds(run.evaluatedAt))
      && RecordsTarget(run))
  {
    var input := InputOf(run);
    LoadedEvidence(input.evidence, run.files, run.subject);
    DiagnosticsNeverBlock(run);
    ReceiptAgreement(input, Diagnostics(run), BuildOf(run), baseline);
  }

  /** Of what loads, the builder refuses only an unversioned build, an unwritable instant, or a record's target. */
  lemma BuilderDecides(run: Run, digestOf: Waiver -> Digest, baseline: Digest)
    requires GatesLoad(run) && RunLoads(run, digestOf) && run.evaluatedAt != 0
    ensures BuildInputOk(BuildOf(run)) && ReceiptOk(ReceiptOf(BuildOf(run), baseline)) <==>
      run.version != "" && Writable(WholeSeconds(run.evaluatedAt)) && RecordsTarget(run)
  {
    RunAccepted(run, digestOf);
    ProvenanceHolds(run);
    RunAgreement(run, digestOf, baseline);
  }

  /**
   A run emits a receipt exactly when it names a base and an instant, its CI
   context agrees with the subject, its documents load, the build is versioned,
   the instant is writable, and every waiver record targets an established
   failure. Neither the evaluator nor the builder refuses it otherwise.
   */
  method Execute(run: Run, digestOf: Waiver -> Digest, baseline: Digest) returns (r: Option<Receipt>)
    ensures r.Some? <==> RunEmits(run, digestOf)
    ensures r.Some? ==> r.value == ReceiptOf(BuildOf(run), baseline)
  {
    if Blank(run.baseRef) || run.evaluatedAt == 0 {
      return None;
    }
    var matches := MatchCi(run);
    if !matches {
      return None;
    }
    var gates := LoadGates(run);
    if gates.None? {
      return None;
    }
    LoadedGatesOk(run);
    if gates.value.1.requirements == [] {
      assert false;
    }
    var input := LoadInput(run, gates.value.0, gates.value.1, digestOf);
    if input.None? {
      return None;
    }
    RunAccepted(run, digestOf);
    var evaluated := Evaluation.Evaluate(input.value);
    BuilderDecides(run, digestOf, baseline);
    r := BuildRun(run, input.value, evaluated.value, baseline);
  }

  // ---- what an emitted receipt says ----

  /**
   The tier of an emitted receipt is earned: AUTHORITATIVE exactly when the gate
   documents were read at the subject's base revision, otherwise CI_ASSERTED
   exactly when a CI context names the receipt's own repository and head.
   */
  lemma EmittedAuthority(run: Run, digestOf: Waiver -> Digest, baseline: Digest)
    requires RunEmits(run, digestOf)
    ensures var r := ReceiptOf(BuildOf(run), baseline); (
      && (r.authority.Authoritative? <==> run.trustedBase)
      && (r.authority.CiAsserted? <==> !run.trustedBase && run.ci.Some?)
      && (r.authority.Advisory? <==> !run.trustedBase && run.ci.None?)
      && (r.authority.Authoritative? <==> r.contractTrust.Trusted? && r.policyTrust.Trusted?)
      && (r.authority.Authoritative? ==>
            r.contractSource == "base:" + r.subject.baseRevision + ":" + CONTRACT_PATH
            && r.policySources[1].source == "base:" + r.subject.baseRevision + ":" + POLICY_PATH)
      && (r.authority.CiAsserted? ==>
            Canonicalize(CI_HOST + run.ci.value.repository) == Some(r.subject.repositoryUri)
            && run.ci.value.sha == r.subject.headRevision))
  {
  }

  /** The documents a run reads its gates from. */
  predicate ReadFrom(run: Run, gates: GateFiles, origin: Origin) {
    if run.trustedBase then gates == run.baseGates && origin == Base(run.subject.baseRevision)
    else gates == run.workspaceGates && origin == Workspace
  }

  /** The receipt of a run records its gate documents, its options and its subject. */
  lemma EmittedGates(run: Run, gates: GateFiles, origin: Origin, baseline: Digest)
    requires GatesLoad(run) && L.AllDecode(run.files) && ReadFrom(run, gates, origin)
    ensures var r := ReceiptOf(BuildOf(run), baseline); (
      && GatesRecorded(r, gates, origin) && LayersRecorded(r, gates, origin, baseline)
      && r.subject == run.subject && r.verifier == Verifier("assurectl", run.version, "v0")
      && r.evaluatedAt % 1_000_000_000 == 0
      && r.evaluatedAt <= run.evaluatedAt < r.evaluatedAt + 1_000_000_000)
  {
    GatesKept(BuildOf(run), gates, origin, baseline);
    LayersKept(BuildOf(run), gates, origin, baseline);
    OptionsKept(BuildOf(run), baseline);
  }

  /** It records every evidence file, every requirement's result and every waiver record. */
  lemma EmittedRecords(run: Run, digestOf: Waiver -> Digest, baseline: Digest)
    requires GatesLoad(run) && RunLoads(run, digestOf) && run.evaluatedAt != 0
    ensures var r := ReceiptOf(BuildOf(run), baseline); (
      && EvidenceRecorded(r.evidence, run.files)
      && ResultsRecorded(r.requirementResults, PolicyOf(run).requirements)
      && WaiversRecorded(r.waivers, RecordsOf(run.waivers)))
  {
    var input := InputOf(run);
    RunAccepted(run, digestOf);
    LoadedEvidence(input.evidence, run.files, run.subject);
    EvidenceKept(input.evidence, run.files, run.subject);
    ResultsKept(input);
    WaiversKept(input);
  }

  predicate SubjectNote(f: Finding, code: string) {
    f.code == code && f.category == SubjectCategory && f.severity == Warning && !f.blocking && f.requirementId == ""
    && f.evidenceIds == []
  }

  /** The resolver's facts close the findings, a dirty worktree first; they never touch the evaluation's decision. */
  lemma EmittedFindings(run: Run, baseline: Digest)
    requires GatesLoad(run) && L.AllDecode(run.files)
    ensures var (r, o) := (ReceiptOf(BuildOf(run), baseline), OutputsOf(InputOf(run)));
      r.findings == o.findings + Diagnostics(run) && r.decision == o.verdict.decision
    ensures |Diagnostics(run)| == (if run.dirty then 1 else 0) + (if run.localOnly then 1 else 0)
    ensures run.dirty ==> SubjectNote(Diagnostics(run)[0], "SUBJECT_DIRTY_WORKTREE")
    ensures run.localOnly ==> SubjectNote(Diagnostics(run)[|Diagnostics(run)| - 1], "SUBJECT_LOCAL_ONLY")
  {
    EvaluationKept(BuildOf(run), baseline);
  }

  /** The run with other gate documents in the workspace. */
  function WithWorkspace(run: Run, gates: GateFiles): Run { run.(workspaceGates := gates) }

  lemma GatesIgnored(run: Run, gates: GateFiles)
    requires run.trustedBase
    ensures GatesLoad(WithWorkspace(run, gates)) <==> GatesLoad(run)
    ensures GatesLoad(run) && L.AllDecode(run.files) ==>
      InputOf(WithWorkspace(run, gates)) == InputOf(run) && BuildOf(WithWorkspace(run, gates)) == BuildOf(run)
  {
  }

  lemma TargetsIgnore(run: Run, run': Run)
    requires GatesLoad(run) && L.AllDecode(run.files) && GatesLoad(run') && L.AllDecode(run'.files)
    requires run'.waivers == run.waivers && InputOf(run') == InputOf(run)
    ensures RecordsTarget(run') <==> RecordsTarget(run)
  {
  }

  lemma OptionsIgnore(run: Run, gates: GateFiles, digestOf: Waiver -> Digest)
    ensures OptionsOk(WithWorkspace(run, gates)) <==> OptionsOk(run)
    ensures RunLoads(WithWorkspace(run, gates), digestOf) <==> RunLoads(run, digestOf)
    ensures RunLoads(run, digestOf) ==> L.AllDecode(run.files)
  {
  }

  lemma EmissionIgnores(run: Run, gates: GateFiles, digestOf: Waiver -> Digest)
    requires run.trustedBase
    ensures RunEmits(WithWorkspace(run, gates), digestOf) <==> RunEmits(run, digestOf)
  {
    GatesIgnored(run, gates);
    OptionsIgnore(run, gates, digestOf);
    if GatesLoad(run) && RunLoads(run, digestOf) {
      TargetsIgnore(run, WithWorkspace(run, gates));
    }
  }

  /** A trusted-base run takes nothing from the workspace's own gate documents. */
  lemma WorkspaceGatesIgnored(run: Run, gates: GateFiles, digestOf: Waiver -> Digest, baseline: Digest)
    requires run.trustedBase
    ensures RunEmits(WithWorkspace(run, gates), digestOf) <==> RunEmits(run, digestOf)
    ensures RunEmits(run, digestOf) ==>
      ReceiptOf(BuildOf(WithWorkspace(run, gates)), baseline) == ReceiptOf(BuildOf(run), baseline)
  {
    EmissionIgnores(run, gates, digestOf);
    if RunEmits(run, digestOf) {
      GatesIgnored(run, gates);
    }
  }

  /** Something matches the requirement, and everything that does is usable and shows the outcome. */
  predicate AllShow(r: Requirement, input: Input, outcome: Outcome) {
    && AllUsable(r, input.evidence, input.evaluatedAt)
    && forall e :: e in input.evidence && e.evidenceType == r.evidenceType ==> e.outcome == outcome
  }

  function Showing(input: Input, outcome: Outcome): Requirement -> bool {
    (r: Requirement) => AllShow(r, input, outcome)
  }

  function AcceptedIn(input: Input): Requirement -> bool { (r: Requirement) => RiskAccepted(r, input) }

  /** The decision, from which requirements pass, which fail, and whose risk is accepted. */
  predicate Decides(d: Decision, rs: seq<Requirement>, known: bool, passes: Requirement -> bool,
                    fails: Requirement -> bool, accepted: Requirement -> bool)
  {
    var conclusive := known && forall r :: r in rs ==> passes(r) || fails(r);
    match d
    case Blocked => !conclusive
    case Approved => conclusive && forall r :: r in rs ==> passes(r)
    case AcceptedWithRisk =>
      conclusive && (exists r :: r in rs && fails(r)) && forall r :: r in rs && fails(r) ==> accepted(r)
    case Rejected => conclusive && exists r :: r in rs && fails(r) && !accepted(r)
  }

  /** The decision by the kernel's three questions. */
  function Answered(settled: bool, someFailure: bool, someUnaccepted: bool): Decision {
    if !settled then Blocked
    else if !someFailure then Approved
    else if someUnaccepted then Rejected else AcceptedWithRisk
  }

  lemma DecisionAnswers(input: Input)
    requires InputOk(input) && input.policy.requirements != []
    ensures var rs := input.policy.requirements;
      OutputsOf(input).verdict.decision ==
        Answered(ReferencesKnown(input) && !Any(Unsettled(input), rs), Any(FailsAmongCandidates(input), rs),
                 Any(Unaccepted(input), rs))
  {
    StuckMeaning(input);
    FailureMeaning(input);
  }

  /** The questions decide alike when they ask of each requirement whether it passes, fails or is accepted. */
  lemma AnswersDecide(d: Decision, rs: seq<Requirement>, known: bool, unsettled: Requirement -> bool,
                      shown: Requirement -> bool, unaccepted: Requirement -> bool, passes: Requirement -> bool,
                      fails: Requirement -> bool, accepted: Requirement -> bool)
    requires forall r :: r in rs ==>
      && unsettled(r) == (!passes(r) && !fails(r)) && unaccepted(r) == (shown(r) && !accepted(r))
      && (fails(r) ==> shown(r)) && (passes(r) ==> !shown(r))
    ensures Answered(known && !Any(unsettled, rs), Any(shown, rs), Any(unaccepted, rs)) == d
       <==> Decides(d, rs, known, passes, fails, accepted)
  {
  }

  lemma ShownAt(r: Requirement, input: Input)
    requires forall e :: e in input.evidence ==> e.outcome.Known()
    ensures var (passes, fails) := (AllShow(r, input, Passed), AllShow(r, input, Failed));
      var shown := CandidateFailure(r, input.evidence, input.evaluatedAt); (
      && (Unsettled(input)(r) <==> !passes && !fails)
      && (fails ==> shown) && (passes ==> !shown))
  {
    KnownOutcomes(r, input.evidence, input.evaluatedAt);
  }

  /**
   With known outcomes the four decisions are read off them: a requirement
   passes when its matches all PASSED and fails when they all FAILED.
   */
  lemma DecisionRead(input: Input, d: Decision)
    requires InputOk(input) && input.policy.requirements != []
    requires forall e :: e in input.evidence ==> e.outcome.Known()
    ensures OutputsOf(input).verdict.decision == d <==>
      Decides(d, input.policy.requirements, ReferencesKnown(input), Showing(input, Passed), Showing(input, Failed),
              AcceptedIn(input))
  {
    var rs := input.policy.requirements;
    DecisionAnswers(input);
    forall r | r in rs
      ensures Unsettled(input)(r) == (!Showing(input, Passed)(r) && !Showing(input, Failed)(r))
      ensures Unaccepted(input)(r) == (FailsAmongCandidates(input)(r) && !AcceptedIn(input)(r))
      ensures Showing(input, Failed)(r) ==> FailsAmongCandidates(input)(r)
      ensures Showing(input, Passed)(r) ==> !FailsAmongCandidates(input)(r)
    {
      ShownAt(r, input);
    }
    AnswersDecide(d, rs, ReferencesKnown(input), Unsettled(input), FailsAmongCandidates(input), Unaccepted(input),
                  Showing(input, Passed), Showing(input, Failed), AcceptedIn(input));
  }

  /** The file's envelope is of the type that the requirement asks for. */
  predicate Answers(f: L.EvidenceFile, r: Requirement) {
    f.envelope.Some? && f.envelope.value.evidenceType == r.evidenceType
  }

  /**
   The envelope speaks for the subject's head, finished by the instant and no
   longer before it than the limit, and comes from a listed producer.
   */
  predicate Speaks(x: L.Envelope, r: Requirement, subject: Subject, at: int) {
    && x.subjectRevision == subject.headRevision
    && x.finishedAt.Some? && x.finishedAt.value <= at
    && (r.maxAgeSeconds.Some? && r.maxAgeSeconds.value <= 9_223_372_036 ==>
          at - x.finishedAt.value <= r.maxAgeSeconds.value * 1_000_000_000)
    && x.producerType in r.allowedProducers
  }

  /** Some file answers the requirement, and every file that does speaks for it, with the outcome. */
  predicate FilesShow(r: Requirement, run: Run, outcome: Outcome) {
    && (exists f :: f in run.files && Answers(f, r))
    && forall f :: f in run.files && Answers(f, r) ==>
         Speaks(f.envelope.value, r, run.subject, run.evaluatedAt) && f.envelope.value.outcome == outcome
  }

  function FilesShowing(run: Run, outcome: Outcome): Requirement -> bool {
    (r: Requirement) => FilesShow(r, run, outcome)
  }

  lemma FileSpeaks(r: Requirement, e: Evidence, f: L.EvidenceFile, subject: Subject, at: int)
    requires L.Decodes(f) && L.LoadedAs(e, f, subject)
    ensures Answers(f, r) <==> e.evidenceType == r.evidenceType
    ensures Speaks(f.envelope.value, r, subject, at) <==> HasFact(r, e, at, Candidate)
  {
  }

  function Answering(r: Requirement): L.EvidenceFile -> bool { (f: L.EvidenceFile) => Answers(f, r) }

  /** The file answers the requirement and does not show the outcome. */
  function Dissenting(r: Requirement, run: Run, outcome: Outcome): L.EvidenceFile -> bool {
    (f: L.EvidenceFile) =>
      Answers(f, r)
      && !(Speaks(f.envelope.value, r, run.subject, run.evaluatedAt) && f.envelope.value.outcome == outcome)
  }

  function MatchedBy(r: Requirement): Evidence -> bool { (e: Evidence) => e.evidenceType == r.evidenceType }

  function Lacking(r: Requirement, at: int, outcome: Outcome): Evidence -> bool {
    (e: Evidence) => e.evidenceType == r.evidenceType && !(HasFact(r, e, at, Candidate) && e.outcome == outcome)
  }

  lemma FileTests(r: Requirement, run: Run, outcome: Outcome, e: Evidence, f: L.EvidenceFile)
    requires L.Decodes(f) && L.LoadedAs(e, f, run.subject)
    ensures Answering(r)(f) <==> MatchedBy(r)(e)
    ensures Dissenting(r, run, outcome)(f) <==> Lacking(r, run.evaluatedAt, outcome)(e)
  {
    FileSpeaks(r, e, f, run.subject, run.evaluatedAt);
  }

  lemma FilesTested(r: Requirement, run: Run, outcome: Outcome)
    requires L.AllDecode(run.files)
    ensures var evidence := EvidenceOf(run.files, run.subject); (
      && (Any(Answering(r), run.files) <==> Any(MatchedBy(r), evidence))
      && (Any(Dissenting(r, run, outcome), run.files) <==> Any(Lacking(r, run.evaluatedAt, outcome), evidence)))
  {
    var evidence := EvidenceOf(run.files, run.subject);
    var never := (f: L.EvidenceFile) => false;
    forall i | 0 <= i < |evidence|
      ensures never(run.files[i]) || MatchedBy(r)(evidence[i]) <==> Answering(r)(run.files[i])
      ensures never(run.files[i]) || Lacking(r, run.evaluatedAt, outcome)(evidence[i])
         <==> Dissenting(r, run, outcome)(run.files[i])
    {
      FileTests(r, run, outcome, evidence[i], run.files[i]);
    }
    AnyZipped(never, MatchedBy(r), Answering(r), run.files, evidence);
    AnyZipped(never, Lacking(r, run.evaluatedAt, outcome), Dissenting(r, run, outcome), run.files, evidence);
  }

  lemma FilesShown(r: Requirement, run: Run, outcome: Outcome)
    requires GatesLoad(run) && L.AllDecode(run.files)
    ensures AllShow(r, InputOf(run), outcome) <==> FilesShow(r, run, outcome)
  {
    FilesTested(r, run, outcome);
    FilesAsked(r, run, outcome);
    EvidenceAsked(r, InputOf(run), outcome);
  }

  lemma FilesAsked(r: Requirement, run: Run, outcome: Outcome)
    ensures FilesShow(r, run, outcome) <==> Any(Answering(r), run.files) && !Any(Dissenting(r, run, outcome), run.files)
  {
  }

  lemma EvidenceAsked(r: Requirement, input: Input, outcome: Outcome)
    ensures AllShow(r, input, outcome) <==>
      Any(MatchedBy(r), input.evidence) && !Any(Lacking(r, input.evaluatedAt, outcome), input.evidence)
  {
  }

  /**
   A receipt built from loaded documents carries exactly the decision that the
   files' own revisions, finishes, producers and outcomes make, with the records
   that accept a failure.
   */
  lemma EmittedDecision(run: Run, digestOf: Waiver -> Digest, baseline: Digest, d: Decision)
    requires GatesLoad(run) && RunLoads(run, digestOf) && run.evaluatedAt != 0
    ensures var input := InputOf(run);
      ReceiptOf(BuildOf(run), baseline).decision == d <==>
        Decides(d, input.policy.requirements, ReferencesKnown(input), FilesShowing(run, Passed),
                FilesShowing(run, Failed), AcceptedIn(input))
  {
    var input := InputOf(run);
    LoadedGatesOk(run);
    RunAccepted(run, digestOf);
    LoadedEvidence(input.evidence, run.files, run.subject);
    DecisionRead(input, d);
    forall r | r in input.policy.requirements
      ensures Showing(input, Passed)(r) == FilesShowing(run, Passed)(r)
      ensures Showing(input, Failed)(r) == FilesShowing(run, Failed)(r)
    {
      FilesShown(r, run, Passed);
      FilesShown(r, run, Failed);
    }
    DecidesAgrees(d, input.policy.requirements, ReferencesKnown(input), Showing(input, Passed),
                  Showing(input, Failed), FilesShowing(run, Passed), FilesShowing(run, Failed), AcceptedIn(input));
  }

  lemma DecidesAgrees(d: Decision, rs: seq<Requirement>, known: bool, passes: Requirement -> bool,
                      fails: Requirement -> bool, passes': Requirement -> bool, fails': Requirement -> bool,
                      accepted: Requirement -> bool)
    requires forall r :: r in rs ==> passes(r) == passes'(r) && fails(r) == fails'(r)
    ensures Decides(d, rs, known, passes, fails, accepted) <==> Decides(d, rs, known, passes', fails', accepted)
  {
  }

  /** An approval rests on files that passed at the head itself, in time, from listed producers. */
  lemma ApprovedEvidence(run: Run, digestOf: Waiver -> Digest, baseline: Digest)
    requires GatesLoad(run) && RunLoads(run, digestOf) && run.evaluatedAt != 0
    ensures ReceiptOf(BuildOf(run), baseline).decision == Approved <==> (
      && ReferencesKnown(InputOf(run))
      && forall r :: r in PolicyOf(run).requirements ==> FilesShow(r, run, Passed))
  {
    EmittedDecision(run, digestOf, baseline, Approved);
    assert forall r :: FilesShowing(run, Passed)(r) == FilesShow(r, run, Passed);
  }

  /**
   A contract loads with any text as its work unit, but a record must name its
   work unit by an identifier: where the contract's is none, no risk can be
   accepted.
   */
  lemma AcceptedUnit(run: Run, digestOf: Waiver -> Digest, baseline: Digest)
    requires GatesLoad(run) && RunLoads(run, digestOf) && run.evaluatedAt != 0
    requires !CanonicalIdentifier(ContractOf(run).workUnit.id)
    ensures ReceiptOf(BuildOf(run), baseline).decision != AcceptedWithRisk
  {
    var input := InputOf(run);
    EmittedDecision(run, digestOf, baseline, AcceptedWithRisk);
    forall r ensures !AcceptedIn(input)(r) {
      NothingAccepted(r, input, digestOf);
    }
  }

  lemma NothingAccepted(r: Requirement, input: Input, digestOf: Waiver -> Digest)
    requires L.RecordsLoad(input.waivers, digestOf) && !CanonicalIdentifier(input.contract.workUnit.id)
    ensures !RiskAccepted(r, input)
  {
  }

  /** The same run with more evidence files and a policy at least as strict. */
  ghost predicate HarderRun(loose: Run, tight: Run)
    requires GatesLoad(loose) && GatesLoad(tight)
  {
    && ContractOf(tight) == ContractOf(loose) && tight.waivers == loose.waivers
    && tight.subject == loose.subject && tight.evaluatedAt == loose.evaluatedAt
    && (forall f :: f in loose.files ==> f in tight.files)
    && TightenedAll(PolicyOf(loose).requirements, PolicyOf(tight).requirements)
  }

  lemma MoreEvidence(files: seq<L.EvidenceFile>, more: seq<L.EvidenceFile>, subject: Subject)
    requires L.AllDecode(files) && L.AllDecode(more) && forall f :: f in files ==> f in more
    ensures forall e :: e in EvidenceOf(files, subject) ==> e in EvidenceOf(more, subject)
  {
    var evidence, evidence' := EvidenceOf(files, subject), EvidenceOf(more, subject);
    forall e | e in evidence ensures e in evidence' {
      var i :| 0 <= i < |evidence| && evidence[i] == e;
      assert files[i] in more;
      var j :| 0 <= j < |more| && more[j] == files[i];
      assert evidence'[j] == e;
    }
  }

  /** No rescue, from loaded documents: the loader's outcomes are known, so nothing is asked of the evidence. */
  lemma NoRescueRun(loose: Run, tight: Run, digestOf: Waiver -> Digest, baseline: Digest)
    requires GatesLoad(loose) && RunLoads(loose, digestOf) && loose.evaluatedAt != 0
    requires GatesLoad(tight) && RunLoads(tight, digestOf) && HarderRun(loose, tight)
    ensures var d := ReceiptOf(BuildOf(loose), baseline).decision;
      var d' := ReceiptOf(BuildOf(tight), baseline).decision;
      d != Blocked ==> d' == d || d' == Blocked
  {
    RunAccepted(loose, digestOf);
    RunAccepted(tight, digestOf);
    LoadedEvidence(InputOf(loose).evidence, loose.files, loose.subject);
    MoreEvidence(loose.files, tight.files, loose.subject);
    NoRescue(InputOf(loose), InputOf(tight));
  }
}
