/**
 The vocabulary shared by the evaluator, the decision kernel and the receipt
 builder. The program's enumerations are strings, so each carries a constructor
 for a text outside its listed values.
 */
module Domain {

  datatype EvidenceState =
    | ValidState | InvalidState | MissingState | StaleState | UntrustedState
    | OtherState(text: string)

  /** `NoOutcome` is the empty string, the outcome of a requirement without one. */
  datatype Outcome = NoOutcome | Passed | Failed | Errored | OtherOutcome(text: string)
  {
    predicate Known() { Passed? || Failed? || Errored? }
  }

  datatype WaiverStatus = NotApplicable | WaiverValid | WaiverInvalid | OtherWaiverStatus(text: string)

  datatype Category =
    | SubjectCategory | ContractCategory | PolicyCategory | EvidenceCategory | VerificationCategory
    | WaiverCategory | AuthorityCategory | ProtocolCategory | InternalCategory
    | OtherCategory(text: string)

  datatype Severity = Info | Warning | Error | OtherSeverity(text: string)

  datatype Verdict = VerdictPassed | VerdictFailed | VerdictIndeterminate

  datatype Decision = Approved | Rejected | Blocked | AcceptedWithRisk

  datatype EvaluationResult = EvaluationResult(verdict: Verdict, decision: Decision)

  /** A finding's text, kept as the name of its wording and the values put into it. */
  datatype Message = NoMessage | Message(wording: string, arguments: seq<string>)

  datatype Finding = Finding(
    code: string,
    category: Category,
    severity: Severity,
    requirementId: string,
    evidenceIds: seq<string>,
    message: Message,
    blocking: bool)

  datatype RequirementResult = RequirementResult(
    requirementId: string,
    state: EvidenceState,
    evidenceIds: seq<string>,
    outcome: Outcome,
    waivable: bool,
    waiverStatus: WaiverStatus)
  {
    /** VALID evidence of a failure. */
    predicate EstablishedFailure() { state.ValidState? && outcome.Failed? }
  }

  /** No requirement has two results. */
  predicate UniqueIds(results: seq<RequirementResult>) {
    forall i, j :: 0 <= i < j < |results| ==> results[i].requirementId != results[j].requirementId
  }

  datatype Digest = Digest(algorithm: string, value: string)

  const SHA256 := "sha256"

  datatype Subject = Subject(
    repositoryUri: string,
    baseRevision: string,
    headRevision: string,
    changeSetAlgorithm: string,
    changeSetDigest: string)

  datatype WorkUnit = WorkUnit(id: string, kind: string, objective: string)

  datatype Trust = Untrusted | Trusted | OtherTrust(text: string)

  datatype Basis = AdvisoryWorkspace | TrustedBase | OtherBasis(text: string)

  datatype Result<+T, +E> = Ok(value: T) | Err(error: E)
}
