/** What the loaders hand to the evaluator. Instants are nanoseconds since the zero time. */
module Inputs {
  import opened Domain
  import opened Seqs

  const CONTRACT_SCHEMA := "assurectl/verification-contract/v0"
  const POLICY_SCHEMA := "assurectl/policy/v0"
  const NANOS_PER_SECOND := 1_000_000_000

  datatype Criterion = Criterion(id: string, statement: string, requirements: seq<string>)

  datatype Contract = Contract(
    schemaVersion: string,
    workUnit: WorkUnit,
    criteria: seq<Criterion>,
    source: string,
    digest: Digest,
    trust: Trust)

  datatype Requirement = Requirement(
    id: string,
    evidenceType: string,
    waivable: bool,
    allowedProducers: seq<string>,
    maxAgeSeconds: Option<int>)

  datatype Policy = Policy(
    schemaVersion: string,
    requirements: seq<Requirement>,
    source: string,
    digest: Digest,
    trust: Trust,
    basis: Basis)

  datatype Binding = Exact | OtherRevision

  /** One ingested evidence envelope. */
  datatype Evidence = Evidence(
    id: string,
    evidenceType: string,
    producerType: string,
    outcome: Outcome,
    finishedAt: int,
    binding: Binding,
    digest: Digest)

  /** A timestamp as written, with the instant it parses to, if it parses. */
  datatype Timestamp = Timestamp(text: string, instant: Option<int>)

  const REQUIREMENT_KIND := "REQUIREMENT"

  datatype Waiver = Waiver(
    id: string,
    targetKind: string,
    targetId: string,
    scopeRepository: string,
    scopeWorkUnit: string,
    scopeHead: string,
    reason: string,
    acceptedRisk: string,
    approverIdentity: string,
    approverAuthority: string,
    issuedAt: Timestamp,
    expiresAt: Timestamp,
    status: WaiverStatus,
    digest: Digest)

  datatype Input = Input(
    contract: Contract,
    policy: Policy,
    evidence: seq<Evidence>,
    subject: Subject,
    waivers: seq<Waiver>,
    evaluatedAt: int)
}
