/** Every documented verdict/decision pair is the outcome of some run that emits a receipt. */
module Reachability {
  import opened DecisionLaws
  import opened Domain
  import opened Evaluation
  import opened Gates
  import opened Identity
  import opened Inputs
  import opened Pipeline
  import opened ReceiptLaws
  import opened Receipts
  import opened RequirementLaws
  import opened Seqs
  import opened Text
  import opened Universe
  import L = Loaders

  function Hex(n: nat): (s: string)
    ensures |s| == n && AllLowerHex(s)
  {
    seq(n, _ => 'a')
  }

  const INSTANT := 1000 * NANOS_PER_SECOND

  const SUBJECT := Subject(LOCAL_PREFIX + Hex(64), Hex(40), Hex(40), "", "")

  const REQUIREMENT := Requirement("r", "t", true, ["p"], None)

  const POLICY := PolicyDocument(POLICY_SCHEMA, [REQUIREMENT])

  /** The contract refers to the one requirement, and on demand to one the policy lacks. */
  function ContractWith(unknown: bool): ContractDocument {
    ContractDocument(CONTRACT_SCHEMA, WorkUnit("w", "commit", "o"),
                     [Criterion("c", "s", if unknown then ["r", "x"] else ["r"])])
  }

  const DIGEST: Sha256 := Digest(SHA256, Hex(64))

  function FilesWith(unknown: bool): GateFiles {
    GateFiles(GateFile(Some(ContractWith(unknown)), DIGEST), GateFile(Some(POLICY), DIGEST))
  }

  /** Gate files that cannot be read. */
  const NO_FILES := GateFiles(GateFile(None, DIGEST), GateFile(None, DIGEST))

  function FileWith(outcome: Outcome): L.EvidenceFile {
    L.EvidenceFile(
      Some(L.Envelope(L.ENVELOPE_SCHEMA, "e", "t", SUBJECT.repositoryUri, SUBJECT.headRevision, "p", "i", "c",
                      Some(1), Some(1), outcome, "a", Digest(SHA256, Hex(64)), "m")),
      true, true, Digest(SHA256, Hex(64)))
  }

  /** A record in scope and in force. */
  const RECORD :=
    Waiver("w", REQUIREMENT_KIND, "r", SUBJECT.repositoryUri, "w", "", "why", "risk", "who", "role",
           Timestamp("", Some(1)), Timestamp("", Some(2 * INSTANT)), WaiverValid, Digest("", ""))

  /** The record, carrying the digest of its other fields. */
  function RecordWith(digestOf: Waiver -> Digest): Waiver {
    RECORD.(digest := digestOf(RECORD))
  }

  /** What varies between the runs. */
  datatype Case = Case(trusted: bool, outcome: Outcome, waived: bool, unknown: bool)

  function RunWith(c: Case, digestOf: Waiver -> Digest): Run {
    Run("HEAD", c.trusted, None, SUBJECT, false, false,
        if c.trusted then NO_FILES else FilesWith(c.unknown), if c.trusted then FilesWith(c.unknown) else NO_FILES,
        [FileWith(c.outcome)],
        if c.waived then L.WaiversFile(L.WAIVERS_SCHEMA, [RecordWith(digestOf)]) else L.Missing, INSTANT, "v")
  }

  lemma SubjectResolved()
    ensures ResolvedSubject(SUBJECT)
  {
    assert SUBJECT.repositoryUri[|LOCAL_PREFIX|..] == Hex(64);
  }

  lemma FileLoads(outcome: Outcome)
    requires outcome.Known()
    ensures L.EvidenceLoads([FileWith(outcome)], SUBJECT)
  {
    SubjectResolved();
    assert L.EnvelopeOk(FileWith(outcome).envelope.value);
  }

  /** The digest function yields well-formed digests. */
  ghost predicate DigestLaw(digestOf: Waiver -> Digest) {
    forall w :: DigestOk(digestOf(w))
  }

  lemma NotBlank(s: string)
    requires s != "" && !IsSpace(s[0])
    ensures !Blank(s)
  {
    assert s[0] in s;
  }

  lemma RecordBlanks()
    ensures !Blank(RECORD.scopeRepository) && !Blank(RECORD.approverIdentity) && !Blank(RECORD.approverAuthority)
    ensures L.NonBlank(RECORD.reason, 1024) && L.NonBlank(RECORD.acceptedRisk, 1024)
  {
    NotBlank(RECORD.scopeRepository);
    NotBlank(RECORD.reason);
    NotBlank(RECORD.acceptedRisk);
    NotBlank(RECORD.approverIdentity);
    NotBlank(RECORD.approverAuthority);
  }

  lemma RecordValid(digest: Digest)
    requires DigestOk(digest)
    ensures L.RecordOk(RECORD.(digest := digest))
  {
    RecordBlanks();
  }

  lemma RecordLoads(digestOf: Waiver -> Digest)
    requires DigestLaw(digestOf)
    ensures L.RecordsLoad([RecordWith(digestOf)], digestOf)
  {
    RecordValid(digestOf(RECORD));
    assert L.Undigested(RecordWith(digestOf)) == RECORD;
  }

  lemma ContractHolds(unknown: bool)
    ensures ContractDocumentOk(ContractWith(unknown))
  {
    assert "x"[0] != "r"[0];
    assert KnownKind("commit");
  }

  lemma PolicyHolds()
    ensures PolicyDocumentOk(POLICY)
  {
    assert |"p"| == 1;
  }

  lemma GatesHold(c: Case, digestOf: Waiver -> Digest)
    ensures GatesLoad(RunWith(c, digestOf))
  {
    ContractHolds(c.unknown);
    PolicyHolds();
  }

  lemma Loads(c: Case, digestOf: Waiver -> Digest)
    requires c.outcome.Known() && DigestLaw(digestOf)
    ensures RunLoads(RunWith(c, digestOf), digestOf)
  {
    FileLoads(c.outcome);
    RecordLoads(digestOf);
  }

  function EnvelopeWith(outcome: Outcome): Evidence {
    Evidence("e", "t", "p", outcome, 1, Exact, Digest(SHA256, Hex(64)))
  }

  /** What the evaluator sees of such a run. */
  ghost predicate SeenIn(input: Input, c: Case, digestOf: Waiver -> Digest) {
    && input.policy.requirements == [REQUIREMENT] && input.contract.criteria == ContractWith(c.unknown).criteria
    && input.contract.workUnit.id == "w" && input.evidence == [EnvelopeWith(c.outcome)] && input.subject == SUBJECT
    && input.waivers == (if c.waived then [RecordWith(digestOf)] else []) && input.evaluatedAt == INSTANT
  }

  lemma InputLoaded(c: Case, digestOf: Waiver -> Digest)
    requires c.outcome.Known() && DigestLaw(digestOf)
    ensures GatesLoad(RunWith(c, digestOf)) && L.AllDecode(RunWith(c, digestOf).files)
    ensures SeenIn(InputOf(RunWith(c, digestOf)), c, digestOf)
  {
    GatesHold(c, digestOf);
    Loads(c, digestOf);
    var run := RunWith(c, digestOf);
    assert EvidenceOf(run.files, run.subject) == [EnvelopeWith(c.outcome)];
  }

  /** What there is to decide on. */
  lemma Seen(input: Input, c: Case, digestOf: Waiver -> Digest)
    requires SeenIn(input, c, digestOf)
    ensures AllUsable(REQUIREMENT, input.evidence, INSTANT)
    ensures forall o :: Observed(REQUIREMENT, input.evidence, INSTANT, o) <==> o == c.outcome
    ensures RiskAccepted(REQUIREMENT, input) <==> c.waived
  {
    assert EnvelopeWith(c.outcome) in input.evidence;
    if c.waived {
      assert RecordWith(digestOf) in input.waivers;
    }
  }

  lemma ReferencesSeen(input: Input, c: Case, digestOf: Waiver -> Digest)
    requires SeenIn(input, c, digestOf)
    ensures ReferencesKnown(input) <==> !c.unknown
  {
    var criterion := ContractWith(c.unknown).criteria[0];
    assert criterion in input.contract.criteria && REQUIREMENT in input.policy.requirements;
    if c.unknown {
      assert criterion.requirements[1] == "x" && "x"[0] != "r"[0];
      assert "x" in criterion.requirements;
    } else {
      assert forall x :: x in input.contract.criteria ==> x == criterion;
      assert criterion.requirements == ["r"] && REQUIREMENT.id == "r";
      assert forall q :: q in criterion.requirements ==> q == "r";
    }
  }

  /** The outcome, the record and the unknown reference decide the pair. */
  function PairFor(c: Case): EvaluationResult {
    if c.outcome.Errored? || (c.outcome.Passed? && c.unknown) then EvaluationResult(VerdictIndeterminate, Blocked)
    else if c.outcome.Passed? then EvaluationResult(VerdictPassed, Approved)
    else EvaluationResult(VerdictFailed, if c.unknown then Blocked else if c.waived then AcceptedWithRisk else Rejected)
  }

  /** The decision over one requirement. */
  lemma OneDecision(input: Input, r: Requirement)
    requires InputOk(input) && input.policy.requirements == [r]
    ensures OutputsOf(input).verdict.decision ==
      if !ReferencesKnown(input) || !(Passes(r, input) || Fails(r, input)) then Blocked
      else if !Fails(r, input) then Approved
      else if RiskAccepted(r, input) then AcceptedWithRisk else Rejected
  {
    assert r in input.policy.requirements;
    DecisionMeaning(input);
  }

  lemma OneVerdict(input: Input, r: Requirement)
    requires InputOk(input) && input.policy.requirements == [r]
    ensures OutputsOf(input).verdict.verdict ==
      if CandidateFailure(r, input.evidence, input.evaluatedAt) then VerdictFailed
      else if ReferencesKnown(input) && Passes(r, input) then VerdictPassed else VerdictIndeterminate
  {
    assert r in input.policy.requirements;
    VerdictMeaning(input);
  }

  lemma OneOutcome(r: Requirement, evidence: seq<Evidence>, at: int, outcome: Outcome)
    requires AllUsable(r, evidence, at) && forall o :: Observed(r, evidence, at, o) <==> o == outcome
    ensures Passing(r, evidence, at) <==> !outcome.Failed? && !outcome.Errored?
    ensures Failing(r, evidence, at) <==> outcome.Failed?
    ensures CandidateFailure(r, evidence, at) <==> outcome.Failed?
  {
    assert Observed(r, evidence, at, outcome);
  }

  lemma PairReached(input: Input, c: Case, digestOf: Waiver -> Digest)
    requires InputOk(input) && SeenIn(input, c, digestOf) && c.outcome.Known()
    ensures OutputsOf(input).verdict == PairFor(c)
  {
    Seen(input, c, digestOf);
    ReferencesSeen(input, c, digestOf);
    OneOutcome(REQUIREMENT, input.evidence, INSTANT, c.outcome);
    OneDecision(input, REQUIREMENT);
    OneVerdict(input, REQUIREMENT);
  }

  lemma SingleTarget(results: seq<RequirementResult>, w: Waiver)
    requires |results| == 1 && results[0].requirementId == w.targetId
    ensures TargetsFailure(w, results) <==> results[0].EstablishedFailure()
  {
    assert results[0] in results;
  }

  /** A record for the one requirement targets an established failure exactly when its candidates fail. */
  lemma OneTarget(input: Input, r: Requirement, w: Waiver)
    requires InputOk(input) && input.policy.requirements == [r] && w.targetId == r.id
    ensures TargetsFailure(w, OutputsOf(input).requirements) <==>
      CandidateFailure(r, input.evidence, input.evaluatedAt)
  {
    FinalResultMeaning(input, 0);
    SingleTarget(OutputsOf(input).requirements, w);
  }

  lemma TargetSeen(input: Input, c: Case, digestOf: Waiver -> Digest)
    requires InputOk(input) && SeenIn(input, c, digestOf)
    ensures TargetsFailure(RecordWith(digestOf), OutputsOf(input).requirements) <==> c.outcome.Failed?
  {
    Seen(input, c, digestOf);
    OneOutcome(REQUIREMENT, input.evidence, INSTANT, c.outcome);
    OneTarget(input, REQUIREMENT, RecordWith(digestOf));
  }

  lemma CaseOptions(c: Case, digestOf: Waiver -> Digest)
    ensures OptionsOk(RunWith(c, digestOf))
  {
    NotBlank("HEAD");
    assert WholeSeconds(INSTANT) == INSTANT;
  }

  lemma CaseAccepted(c: Case, digestOf: Waiver -> Digest)
    requires c.outcome.Known() && DigestLaw(digestOf)
    ensures GatesLoad(RunWith(c, digestOf)) && RunLoads(RunWith(c, digestOf), digestOf)
    ensures L.AllDecode(RunWith(c, digestOf).files) && SeenIn(InputOf(RunWith(c, digestOf)), c, digestOf)
    ensures InputOk(InputOf(RunWith(c, digestOf)))
  {
    InputLoaded(c, digestOf);
    Loads(c, digestOf);
    RunAccepted(RunWith(c, digestOf), digestOf);
  }

  lemma OneRecord(run: Run, w: Waiver)
    requires GatesLoad(run) && L.AllDecode(run.files) && RecordsOf(run.waivers) == [w]
    ensures RecordsTarget(run) <==> TargetsFailure(w, OutputsOf(InputOf(run)).requirements)
  {
    assert w in RecordsOf(run.waivers);
  }

  lemma NoRecord(run: Run)
    requires GatesLoad(run) && L.AllDecode(run.files) && RecordsOf(run.waivers) == []
    ensures RecordsTarget(run)
  {
  }

  lemma CaseTargets(c: Case, run: Run, digestOf: Waiver -> Digest)
    requires GatesLoad(run) && L.AllDecode(run.files) && InputOk(InputOf(run)) && SeenIn(InputOf(run), c, digestOf)
    requires RecordsOf(run.waivers) == if c.waived then [RecordWith(digestOf)] else []
    ensures RecordsTarget(run) <==> !c.waived || c.outcome.Failed?
  {
    if c.waived {
      OneRecord(run, RecordWith(digestOf));
      TargetSeen(InputOf(run), c, digestOf);
    } else {
      NoRecord(run);
    }
  }

  /** Of these runs exactly those emit a receipt whose record, if any, targets a failure. */
  lemma CaseEmits(c: Case, digestOf: Waiver -> Digest)
    requires c.outcome.Known() && DigestLaw(digestOf)
    ensures RunEmits(RunWith(c, digestOf), digestOf) <==> !c.waived || c.outcome.Failed?
  {
    CaseOptions(c, digestOf);
    CaseAccepted(c, digestOf);
    CaseTargets(c, RunWith(c, digestOf), digestOf);
  }

  lemma CasePair(c: Case, digestOf: Waiver -> Digest)
    requires c.outcome.Known() && DigestLaw(digestOf)
    ensures GatesLoad(RunWith(c, digestOf)) && L.AllDecode(RunWith(c, digestOf).files)
    ensures OutputsOf(InputOf(RunWith(c, digestOf))).verdict == PairFor(c)
  {
    CaseAccepted(c, digestOf);
    PairReached(InputOf(RunWith(c, digestOf)), c, digestOf);
  }

  /**
   Loadable runs whose only fault is a waiver record aimed at a requirement that
   has not failed: they are evaluated, to APPROVED if the evidence passed, and
   emit no receipt.
   */
  lemma RejectedTargetWitness(c: Case, digestOf: Waiver -> Digest)
    requires c.waived && c.outcome.Known() && !c.outcome.Failed? && DigestLaw(digestOf)
    ensures var run := RunWith(c, digestOf); (
      && OptionsOk(run) && GatesLoad(run) && RunLoads(run, digestOf) && !RunEmits(run, digestOf)
      && OutputsOf(InputOf(run)).verdict == PairFor(c)
      && (c.outcome.Passed? && !c.unknown ==> PairFor(c) == EvaluationResult(VerdictPassed, Approved)))
  {
    CaseOptions(c, digestOf);
    Loads(c, digestOf);
    CasePair(c, digestOf);
    CaseEmits(c, digestOf);
  }

  lemma ReceiptPair(run: Run, baseline: Digest)
    requires GatesLoad(run) && L.AllDecode(run.files)
    ensures var r := ReceiptOf(BuildOf(run), baseline);
      EvaluationResult(r.verdict, r.decision) == OutputsOf(InputOf(run)).verdict && r.authority == TierOf(run)
  {
  }

  /**
   Each documented pair is the outcome of a run that emits a receipt, advisory
   or authoritative: in particular an accepted risk is reachable from loaded
   documents to receipt in both tiers.
   */
  lemma EveryPairReached(c: Case, digestOf: Waiver -> Digest, baseline: Digest)
    requires c.outcome.Known() && (c.waived ==> c.outcome.Failed?) && DigestLaw(digestOf)
    ensures var run := RunWith(c, digestOf);
      && RunEmits(run, digestOf)
      && var r := ReceiptOf(BuildOf(run), baseline);
         EvaluationResult(r.verdict, r.decision) == PairFor(c)
         && r.authority == if c.trusted then Authoritative else Advisory
  {
    CaseEmits(c, digestOf);
    CasePair(c, digestOf);
    ReceiptPair(RunWith(c, digestOf), baseline);
  }
}
