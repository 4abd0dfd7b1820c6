# assurectl: a verified model of the completion-assurance pipeline

assurectl decides whether a work unit may be called complete. It loads evidence
envelopes and waiver records, matches evidence against a policy's requirements,
classifies every envelope, normalizes each requirement to one result, applies
waivers, asks a small deterministic kernel for a verdict and a decision, and records
all of it in a receipt that re-derives the decision before it is emitted. This
project models that pipeline and four smaller cores around it in Dafny, and proves
what they guarantee for every input:

- **The evaluation pipeline** (`Gates`, `Loaders`, `Facts`, `Normalization`,
  `Universe`, `Waivers`, `Evaluation`, `Kernel`, `Receipts`, `Pipeline`). The
  imperative code is modelled by methods with the same loops and flags, each proved
  against a specification function; the properties of the whole pipeline are then
  lemmas about those functions: the decision has an exact declarative meaning
  (`DecisionLaws`), the order of evidence shows nowhere and the order of waiver
  records in no requirement, verdict or decision (`OrderInvariance`, `ReceiptLaws`),
  more evidence or a stricter policy never rescues a decision and waivers touch
  nothing else (`Monotonicity`), every finding is derived field by field
  (`FindingLaws`), what a receipt records and what refuses a run is listed on the
  fields of its documents (`ReceiptContents`, `Refusals`), the kernel never rejects
  what the loaders let through (`Totality`), and a receipt can be built exactly when
  every waiver record targets an established failure (`ReceiptLaws`, `Pipeline`);
  every documented verdict/decision pair is reached by some run (`Reachability`).
- **Repository identities** (`Identity`, `IdentityLaws`, `IdentityFixpoints`,
  `IdentityAcceptance`, `IdentityParts`, `ChangeSet`): which texts are accepted, which
  remotes share an identity, that an identity decodes uniquely, and exactly which
  identities are not fixpoints.
- **DSSE envelopes and the trusted root** (`Pae`, `TrustRoot`, `TrustLaws`): an
  injective signing input, and exactly when a key resolves and an envelope verifies.
- **The strict JSON scan** (`StrictJson`, `StrictJsonLaws`, `Shapes`): acceptance of
  exactly the duplicate-free trees.
- **The JWKS key cache** (`Jwks`): a bound on fetches over every run of lookups.

`Seqs`, `Sorting`, `Text`, `Domain` and `Inputs` hold the shared vocabulary;
instants are integer nanoseconds, the program's enumerations are datatypes with a
constructor for unlisted text, and errors are `Option`/`Result` values.

## Where the code differs from its prose

The model follows the code in each case.

- ADR-0008 says a waiver record aimed at a requirement that has not failed is
  rejected, recorded and surfaced. The evaluator does that, but the receipt builder
  then refuses the whole receipt, because it requires the target of every record,
  also of an INVALID one, to be an established failure
  (`internal/receipt/validate.go:175-181`; `ReceiptLaws.RejectedTargetRefused`). A
  run on loadable documents that is evaluated to APPROVED and emits nothing is
  `Reachability.RejectedTargetWitness`; `Pipeline.Execute` says exactly when a
  receipt is emitted.
- ADR-0008 also says that receipts with waivers are advisory. The tier of a receipt
  does not depend on its waivers: `Pipeline.EmittedAuthority` gives it exactly, and
  `Reachability.EveryPairReached` includes an authoritative ACCEPTED_WITH_RISK.
- Canonicalization drops one `.git` only, so it is not idempotent
  (`internal/gitsubject/identity.go:207-209`; `IdentityFixpoints.NotIdempotent`,
  with the exact set of exceptions in `IdentityFixpoints.Fixpoints`, each of which
  occurs). The evidence loader and, with waivers, the evaluator refuse a subject
  with such an identity (`Pipeline.ResolvedSubjectExactly`).
- The key cache's comment promises one refresh per distinct kid; the code remembers
  only the last kid it fetched for (`internal/appserver/github_jwks.go:25`).
  `Jwks.OncePerKidExactly` says of which runs the promise holds,
  `Jwks.UnservedFetchEveryBlock` what unserved kids cost, and
  `Jwks.AlternatingRefetches` is a run of three lookups that breaks it.
- Age limits above 9223372036 seconds never expire, because the elapsed time is
  saturated at 64 bits before it is compared (`Facts.AgeComparisonExact`). The
  code's comment speaks of bounds beyond int64 seconds.

Building a receipt from an evaluation's own result has two conditions besides the
provenance claim and the waiver targets: a non-empty verifier version, and an
instant whose year has four digits, since the builder reads its own timestamp back.
Both are part of `ReceiptLaws.ReceiptAgreement`. The provenance claim of a run never
fails (`Pipeline.ProvenanceHolds`).

A contract may name its work unit by any text of up to 256 characters, but a waiver
record must name it by an identifier (`internal/contract/loader.go:110`,
`internal/waiver/load.go:88`): under any other work unit no risk can be accepted
(`Pipeline.AcceptedUnit`).

`Monotonicity.NoRescue` relies on the evidence loader's guarantee that an outcome is
PASSED, FAILED or ERROR, proved in `Pipeline.LoadedEvidence`: aggregation counts any
other text as passing. `Pipeline.NoRescueRun` states it for two runs, where nothing
needs to be asked of the outcomes. The kernel lets a waiver finding without a
requirement id through, so `Totality.KernelTotality` names the empty target.

## Model

| member | source | states |
|---|---|---|
| DecisionLaws.DecisionMeaning | internal/evaluation/evaluate.go:52-77 | each of the four decisions, if and only if: not BLOCKED exactly when there are requirements, all contract references are known and every requirement's matches are all candidates that agree; then APPROVED, ACCEPTED_WITH_RISK and REJECTED by whether requirements fail and whether an applicable waiver accepts each failure |
| DecisionLaws.VerdictMeaning | internal/decision/evaluate.go:59-90 | FAILED exactly when some requirement's candidates establish a failure, even when the decision is blocked; PASSED exactly when everything is settled and passes |
| DecisionLaws.BlockingMeaning | internal/evaluation/evaluate.go:62-76 | a blocking finding exists exactly when the contract names an unknown requirement or some requirement has an evidence finding; waiver findings never block |
| DecisionLaws.StuckMeaning | internal/decision/evaluate.go:40-72 | the kernel finds the input indeterminate or blocked exactly when a reference is unknown or a requirement is unsettled |
| DecisionLaws.FinalResultMeaning | internal/evaluation/waiver.go:29-69 | what a requirement's final result says, in terms of its evidence and the supplied waivers only |
| OrderInvariance.EvidenceOrderIrrelevant | internal/evaluation/evaluate.go:52-77 | every permutation of the evidence gives the identical requirements, finding sequence, resolved waivers, verdict and refusals |
| OrderInvariance.RequirementFindingsSameClasses | internal/evaluation/evaluate.go:182-278 | reordering evidence may move a requirement's findings, but those that tie under the sort key stay the same sequence |
| OrderInvariance.RequirementResultAgrees | internal/evaluation/evaluate.go:182-259 | a requirement's result does not depend on evidence order |
| OrderInvariance.FindingOrder | internal/evaluation/evaluate.go:134-152 | code, requirement id and joined evidence ids give a total preorder, so the sorted order is well defined |
| Sorting.SortFilter | internal/evaluation/evaluate.go:134-148 | a stable sort commutes with removing findings |
| Sorting.SortAgrees | internal/evaluation/evaluate.go:134-148 | inputs that agree on every class of tied findings sort to the same sequence |
| Sorting.SortStable | internal/evaluation/evaluate.go:134-148 | tied findings keep their order |
| Monotonicity.NoRescue | internal/evaluation/evaluate.go:182-259 | after a decision other than BLOCKED, adding envelopes, lowering or introducing age limits and removing producers keeps the decision or blocks it |
| Monotonicity.WaiverNeutrality | internal/evaluation/waiver.go:24-69 | against the same input without waivers: equal verdict, requirements that differ in waiver status only, the same non-waiver findings in the same order, and a decision that moves at most from REJECTED to ACCEPTED_WITH_RISK |
| Monotonicity.FindingsNeutral | internal/evaluation/evaluate.go:69-72 | dropping the waiver findings from the sorted list leaves exactly the list of the evaluation without waivers |
| Totality.KernelTotality | internal/decision/evaluate.go:93-160 | for an accepted input, the kernel rejects nothing exactly when every matched evidence id is canonical and every waiver target is empty or canonical |
| Totality.RequirementAccepted | internal/decision/evaluate.go:93-129 | one requirement's normalized result and findings pass the kernel's validation exactly when its matched ids are canonical |
| Evaluation.Evaluate | internal/evaluation/evaluate.go:52-77 | succeeds exactly on valid input that the kernel accepts, then returns the specified outputs; otherwise reports which stage refused and the first fault |
| Evaluation.EvaluateRequirements | internal/evaluation/evaluate.go:57-68 | one result per requirement in policy order, and every evidence finding |
| Evaluation.ValidateInput | internal/evaluation/evaluate.go:334-421 | accepts exactly instants, contracts, policies, identifiers and, with waivers, canonical resolved subjects that the evaluator may rely on |
| Evaluation.CheckRequirementIds | internal/evaluation/evaluate.go:345-354 | accepts exactly lists of canonical ids without repetition |
| Evaluation.CheckCriteria | internal/evaluation/evaluate.go:356-365 | accepts exactly criteria whose every reference is canonical |
| Facts.AgeComparisonExact | internal/evaluation/evaluate.go:470-474 | comparison after 64-bit saturation equals the unbounded one for all instants if and only if the limit is at most 9223372036 seconds; above it nothing is ever too old |
| Facts.ElapsedExactly | internal/evaluation/evaluate.go:470-474 | the elapsed time is the difference exactly when it fits in 64 bits, and otherwise the nearer bound |
| Facts.FactPhases | internal/evaluation/evaluate.go:451-465 | an exact-revision envelope with a limit is future, then usable on exactly [finished, finished + limit], then too old; with a limit above the bound it stays usable |
| Facts.FactsAdvance | internal/evaluation/evaluate.go:451-465 | as the instant grows an envelope never returns to an earlier phase, nor changes its producer's standing within one |
| Facts.TighteningKeepsCandidates | internal/evaluation/evaluate.go:451-485 | a candidate under a stricter requirement is one under the looser requirement |
| Facts.AllowsProducer | internal/evaluation/evaluate.go:478-485 | permits exactly the listed producer types, none when the list is empty |
| Facts.FactTable | internal/evaluation/evaluate.go:451-474 | each of the five facts, if and only if, on the fields of the envelope and the requirement: the binding first, then a finish after the instant, then an age above the limit in unbounded integers, then the producer list |
| Facts.Classify | internal/evaluation/evaluate.go:451-474 | the checks in the code's order give the fact of the table |
| Normalization.EvaluateRequirement | internal/evaluation/evaluate.go:182-259 | the result and the finding sequence of a requirement, from its matched envelopes sorted by fact |
| Normalization.MatchEnvelopes | internal/evaluation/evaluate.go:426-434 | the positions, in order, of exactly the envelopes of the required type |
| Normalization.SortByFact | internal/evaluation/evaluate.go:188-205 | every matched envelope lands in the list of its own fact, in ingestion order, and only candidates contribute outcomes |
| Normalization.AggregateCandidates | internal/evaluation/evaluate.go:296-318 | conflict makes the evidence INVALID; otherwise an error dominates a failure and a failure a pass |
| Normalization.AppendFactFindings | internal/evaluation/evaluate.go:262-278 | one finding per envelope, in order, after the findings already there |
| Normalization.NormalizeFacts | internal/evaluation/evaluate.go:213-258 | candidates decide before stale envelopes and those before untrusted ones; a conflict finding appears only for disagreeing candidates |
| RequirementLaws.NormalizationTable | internal/evaluation/evaluate.go:182-259 | the state of a result, both directions, from which facts and outcomes occur among the matches |
| RequirementLaws.ResultReferences | internal/evaluation/evaluate.go:213-258 | a result lists, strictly increasing, exactly the ids of the matched envelopes that decided its state |
| RequirementLaws.EveryMatchAccounted | internal/evaluation/evaluate.go:182-278 | every matched envelope is a candidate or has one finding of its own; one more finding appears exactly on conflict |
| RequirementLaws.NoFindings | internal/evaluation/evaluate.go:182-278 | no finding is raised exactly when something matches, all matches are candidates, and passes and failures do not mix |
| RequirementLaws.ResultOutcome | internal/evaluation/evaluate.go:182-318 | an established failure exactly when candidates fail with no pass and no error among them |
| RequirementLaws.RequirementFindingsBlock | internal/evaluation/evaluate.go:262-278 | every evidence finding blocks |
| RequirementLaws.KnownOutcomes | internal/evaluation/evaluate.go:296-318 | with loader-admitted outcomes, passing means all matches PASSED and failing means all FAILED |
| RequirementLaws.OutcomeTable | internal/evaluation/evaluate.go:213-318 | the outcome of a result, both directions, from the outcomes of the matched envelopes that are exact, in time and from listed producers |
| SortedIds.CompactInPlace | internal/evaluation/evaluate.go:325-331 | compaction through the aliasing slice still yields the compaction of the original contents |
| SortedIds.SortedCopy | internal/evaluation/evaluate.go:321-332 | a fresh slice with the sorted, duplicate-free ids; the input is not written |
| SortedIds.SortedSetMeaning | internal/evaluation/evaluate.go:321-332 | the result is strictly increasing and holds exactly the input's ids |
| SortedIds.SortedSetAgrees | internal/evaluation/evaluate.go:321-332 | the result depends only on which ids occur |
| Universe.CollectUniverseFindings | internal/evaluation/evaluate.go:83-130 | unknown references in contract order, then unreferenced requirements in policy order |
| Universe.UnknownFindingsMeaning | internal/evaluation/evaluate.go:92-114 | exactly one finding per distinct requirement id the contract names and the policy lacks |
| Universe.UnreferencedMeaning | internal/evaluation/evaluate.go:116-128 | the other findings are exactly one kind, for exactly the policy requirements no criterion references |
| Universe.UniverseBlocks | internal/evaluation/evaluate.go:83-130 | the cross-check blocks exactly when the contract names a requirement the policy lacks |
| Universe.UniverseTable | internal/evaluation/evaluate.go:83-130 | every cross-check finding, field by field, if and only if: one for the first criterion that names a requirement the policy lacks, one for each requirement that no criterion names |
| Waivers.ApplyWaivers | internal/evaluation/waiver.go:29-69 | results, resolved records and findings of the in-order pass, whose classification reads the statuses it sets |
| Waivers.BuildIndex | internal/evaluation/waiver.go:38-41 | maps each requirement id to its position |
| WaiverLaws.ClassifyMeaning | internal/evaluation/waiver.go:71-101 | the classification of record j, made against the mutated results, equals one read off the original results and records: the first applicable record applies, later ones are superseded, others are rejected for target, scope, expiry or timing in that order |
| WaiverLaws.PassMeaning | internal/evaluation/waiver.go:29-69 | after the pass a result is waived exactly as its covering records say, and each record is resolved as declared |
| WaiverLaws.RecordsConserved | internal/evaluation/waiver.go:43-67 | each record yields one resolved record and one non-blocking finding about its target, in order, with only its status changed |
| WaiverLaws.WaivedIffCovered | internal/evaluation/waiver.go:47-53 | a requirement is waived exactly when some record is the first to cover it |
| WaiverLaws.OneValidRecord | internal/evaluation/waiver.go:29-69 | among the records for a requirement, VALID is exactly the first that covers it |
| WaiverLaws.RecordOrderIrrelevant | internal/evaluation/waiver.go:29-69 | permuting the records of one pass changes no requirement result |
| FindingLaws.EvidenceTable | internal/evaluation/evaluate.go:182-278 | the findings of one requirement, if and only if, field by field: what is missing, which matched envelope is stale or untrusted and under which code, and a conflict with all its candidates |
| FindingLaws.WaiverTable | internal/evaluation/waiver.go:43-114 | the status of record j and its whole finding, from its target, its scope, its dates and the records before it, on the fields of the input |
| FindingLaws.StatusTable | internal/evaluation/waiver.go:47-53 | a final result carries a VALID waiver exactly when its requirement is waivable, its candidates fail and some record in scope and in force names it |
| FindingLaws.MisscopedRejected | internal/evaluation/waiver.go:108-114 | a record whose repository, work unit or non-empty head is not the subject's is INVALID, reported as WAIVER_REJECTED_SCOPE exactly when its target is a waivable failure, and dropping it changes no requirement |
| FindingLaws.IneffectiveDropped | internal/evaluation/waiver.go:29-69 | dropping a record that accepts no risk changes no requirement |
| FindingLaws.EvidenceGathered | internal/evaluation/evaluate.go:52-77 | a finding is among the evidence findings exactly when some policy requirement raises it |
| FindingLaws.FindingsGathered | internal/evaluation/evaluate.go:62-72 | the findings of an evaluation are the cross-check's, the requirements' and the waivers', each as often as raised |
| FindingLaws.FindingsOrdered | internal/evaluation/evaluate.go:134-152 | findings stand by code, then requirement id, then comma-joined evidence ids, in byte order |
| Text.LessAtDifference | internal/evaluation/evaluate.go:134-148 | one string is below another exactly when, where they first differ, it ends or has the smaller character |
| OrderInvariance.WaiverOrderIrrelevant | internal/evaluation/evaluate.go:52-77 | permuting the waiver records of an evaluation changes neither its requirements nor its verdict and decision, nor whether it is accepted |
| Kernel.Evaluate | internal/decision/evaluate.go:18-91 | accepts exactly valid input and judges it; otherwise blocks and names the first item that cannot be accepted |
| Kernel.FivePairs | internal/decision/evaluate.go:59-90 | only the five documented verdict/decision pairs occur, with what each says about results and findings |
| Kernel.KernelTable | internal/decision/evaluate.go:40-90 | both verdict and decision, each value if and only if, on the fields of results and findings |
| Kernel.FirstFaultUnique | internal/decision/evaluate.go:20-57 | the fault the kernel names is the only first one: requirements before findings, and the lowest position |
| Kernel.NonBlockingNeutral | internal/decision/evaluate.go:49-57 | well-formed findings that do not block change neither acceptance nor result |
| Kernel.ValidateRequirement | internal/decision/evaluate.go:93-129 | accepts exactly results the kernel's rules allow, including that a VALID waiver sits on a waivable established failure |
| Kernel.ValidateFinding | internal/decision/evaluate.go:131-160 | accepts exactly well-formed findings |
| Kernel.CheckEveryFailureWaived | internal/decision/evaluate.go:162-172 | true exactly when every established failure is waivable and waived |
| Receipts.Build | internal/receipt/build.go:36-89 | returns the assembled receipt exactly when the input and the receipt's own semantic checks hold, and nothing otherwise |
| Receipts.ValidateBuildInput | internal/receipt/validate.go:24-58 | accepts exactly provenance claims the inputs support, a set instant, and evidence ids that do not disagree on digests |
| Receipts.ValidateReceipt | internal/receipt/validate.go:65-117 | accepts exactly receipts whose ids are unique, decision re-derives, evidence ids are bound, records are legal, blocking is honoured and authority holds |
| Receipts.ValidateRequirementUniqueness | internal/receipt/validate.go:119-128 | accepts exactly results without a repeated requirement id |
| Receipts.ValidateEvidenceBinding | internal/receipt/validate.go:150-164 | accepts exactly results whose every evidence id is referenced, with at least one when VALID |
| Receipts.ValidateWaiverRecords | internal/receipt/validate.go:166-198 | accepts exactly records that target an established failure and, when VALID, a waivable one in this repository and work unit with readable timestamps |
| Receipts.ValidateAuthority | internal/receipt/validate.go:92-109 | an authoritative receipt is trusted throughout and binds a project layer to the subject's base |
| Receipts.CollectReferences | internal/receipt/build.go:91-103 | one reference per entry, ordered by id |
| Receipts.ConvertWaivers | internal/receipt/build.go:129-150 | the resolved records, in order, in receipt form |
| ReceiptLaws.ReceiptAgreement | internal/receipt/build.go:36-89 | building from the evaluator's own result with non-blocking findings appended succeeds exactly when provenance, version and instant are in order and every record targets an established failure |
| ReceiptLaws.AdvisoryAgreement | internal/receipt/build.go:36-89 | an advisory receipt is refused only over a waiver's target |
| ReceiptLaws.RederivationHolds | internal/receipt/validate.go:134-148 | re-deriving the decision from the receipt's own results and findings gives the recorded one, and no blocking finding accompanies a decision other than BLOCKED |
| ReceiptLaws.MembershipHolds | internal/receipt/validate.go:150-164 | evidence references are unique and cover every id the results name |
| ReceiptLaws.AuthorityHolds | internal/receipt/validate.go:92-109 | what the provenance check demands makes the authority check hold |
| ReceiptLaws.RecordAccepted | internal/receipt/validate.go:166-198 | however a record was resolved, the builder accepts it exactly when its target is an established failure |
| ReceiptLaws.RejectedTargetRefused | internal/receipt/validate.go:175-181 | a record aimed at anything else is resolved INVALID, yet no receipt can be built from it |
| ReceiptLaws.ReferencesUnique | internal/receipt/build.go:91-103 | with unique evidence ids no reference is lost or repeated |
| ReceiptLaws.ReferencesOrderInvariant | internal/receipt/build.go:91-103 | with unique ids the references do not depend on ingestion order |
| ReceiptLaws.ReceiptOrderInvariant | internal/receipt/build.go:36-89 | the whole receipt is the same for every order of the evidence |
| Loaders.LoadEvidence | internal/evidence/loader.go:195-264 | all files become evidence in order, or none: exactly when the subject is canonical, every envelope is valid and binds to it, artifacts match and no id or artifact URI repeats |
| Loaders.DecodeFiles | internal/evidence/loader.go:213-236 | the first loop passes exactly when every file decodes and no id or artifact URI occurs twice |
| Loaders.BindFiles | internal/evidence/loader.go:238-263 | the second loop passes exactly when every envelope binds to the subject and its artifact matches |
| Loaders.LoadWaivers | internal/waiver/load.go:33-124 | returns the records unchanged and complete, exactly when each is valid, carries its own digest and repeats no id; a missing file is no record |
| Pipeline.LoadedEvidence | internal/evidence/loader.go:195-264 | evidence i is file i: its id, type, producer type, outcome, digest and the finish of its invocation, exact exactly when its revision is the subject's head; ids are unique and canonical, outcomes known |
| Pipeline.LoadedInputAccepted | internal/evaluation/evaluate.go:334-377 | loaded inputs with well-formed gates meet no refusal in the evaluator or the kernel |
| Pipeline.ResolvedSubjectExactly | internal/evidence/subject.go:10-22 | a canonicalized subject can carry evidence exactly when its identity is a fixpoint and its head an object id |
| Pipeline.Execute | internal/verify/verify.go:43-160 | from a resolved subject, a run emits a receipt exactly when it names a base and an instant, its CI context names the subject's repository and head, its gate documents, evidence and waivers load, the build is versioned, the instant is writable and every waiver targets an established failure |
| Pipeline.MatchCi | internal/verify/verify.go:72-83 | agrees exactly when there is no CI context or it names the subject's canonical repository and head |
| Pipeline.LoadGates | internal/verify/verify.go:85-108 | the contract and policy of the base revision in trusted-base mode, of the workspace otherwise, both or neither |
| Pipeline.ProvenanceHolds | internal/receipt/validate.go:24-47 | the tier a run derives from its options is always supported by the documents it loaded and the context it carries |
| Pipeline.RunAccepted | internal/evaluation/evaluate.go:334-421 | neither the evaluator's input checks nor the kernel refuse anything that loads |
| Pipeline.EmittedAuthority | internal/verify/verify.go:60-83 | an emitted receipt is AUTHORITATIVE exactly when its gate documents were read at the subject's base revision, which it then names as their source; otherwise CI_ASSERTED exactly when a CI context names its repository and head, and ADVISORY exactly when there is none |
| Pipeline.WorkspaceGatesIgnored | internal/verify/verify.go:85-105 | in trusted-base mode the workspace's own gate documents change neither whether a receipt is emitted nor what it says |
| Pipeline.NoRescueRun | internal/verify/verify.go:43-160 | between two loadable runs, the second with more evidence files and a policy at least as strict, a decision other than BLOCKED is kept or blocked |
| Pipeline.EmittedDecision | internal/verify/verify.go:43-160 | each of the four decisions of a receipt, if and only if, on the fields of the evidence files: which requirements are answered by files that all name the head, finished in time, come from listed producers and PASSED or FAILED, whether references are known, and whose failure a record accepts |
| Pipeline.ApprovedEvidence | internal/verify/verify.go:43-160 | APPROVED exactly when references are known and every requirement is answered, and only by files whose revision is the subject's head, finished by the instant and within the limit, from listed producers, and PASSED |
| Pipeline.AcceptedUnit | internal/waiver/load.go:80-124 | under a contract whose work unit is no identifier, which loads, no run is ACCEPTED_WITH_RISK: no record that loads can name the unit |
| Pipeline.EmittedGates | internal/receipt/build.go:42-76 | work unit, sources, digests, trust and both policy layers are those of the gate files the options select; subject, version and the instant in whole seconds are the run's |
| Pipeline.EmittedRecords | internal/receipt/build.go:91-150 | the receipt refers to exactly the evidence files, by increasing id; it has one result per policy requirement in order, and every waiver record, field for field but for its status |
| Pipeline.EmittedFindings | internal/verify/verify.go:136-144 | the findings are the evaluation's and then the resolver's facts, which change no decision |
| Refusals.RunRefused | internal/verify/verify.go:43-160 | a run emits nothing exactly over a listed defect of its options, gate documents, evidence files or waiver records, or a record whose target did not fail |
| Refusals.EvidenceRefused | internal/evidence/loader.go:195-264 | the evidence is refused exactly over an unresolved subject, a defective file or two files sharing an id or artifact URI, defect by defect |
| Refusals.RecordsRefused | internal/waiver/load.go:33-124 | waiver records are refused exactly over a defective record or a repeated id, defect by defect |
| Refusals.ContractRefused | internal/contract/loader.go:106-153 | a contract is refused exactly over one of its listed defects |
| Refusals.PolicyRefused | internal/policy/loader.go:192-230 | a policy is refused exactly over one of its listed defects |
| Refusals.InputRefused | internal/evaluation/evaluate.go:334-421 | the evaluator's input is refused exactly over a zero instant, a gate of unlisted schema, digest or trust, a bad or repeated id, or waivers without a resolved subject |
| Refusals.ReceiptRefused | internal/receipt/validate.go:65-198 | a receipt, whatever it holds, is refused exactly over a repeated id, a pair the kernel does not derive, an unbound evidence id, an illegal record, a blocking finding outside BLOCKED, an overclaimed tier, or an incomplete verifier or instant |
| Refusals.ResultRefused | internal/decision/evaluate.go:93-129 | the kernel refuses a result exactly over a bad or repeated id, an unlisted value, VALID without evidence or outcome, or a VALID waiver of anything but a waivable failure |
| Refusals.FindingRefused | internal/decision/evaluate.go:131-160 | the kernel refuses a finding exactly over an empty code or message, an unlisted category or severity, or a bad or repeated id |
| Refusals.KernelRefused | internal/decision/evaluate.go:18-57 | the kernel refuses its input exactly over one refused result or finding or two results for one requirement |
| Refusals.BuildRefused | internal/receipt/validate.go:16-58 | a build input is refused exactly over a claim its documents or context do not support, a zero instant, or one evidence id with two digests |
| Gates.LoadContract | internal/contract/loader.go:46-104 | a contract loads exactly when it decodes, is valid and, from a base, the revision is an object id; its source, trust and digest follow from where it was read |
| Gates.LoadPolicy | internal/policy/loader.go:62-130 | the same of a policy, with its authority basis |
| Gates.ValidateContract | internal/contract/loader.go:106-153 | accepts exactly contracts with a known work unit and distinct, well-formed criteria that each refer to distinct canonical ids |
| Gates.ValidatePolicy | internal/policy/loader.go:192-230 | accepts exactly policies with distinct canonical requirements that each allow distinct producers |
| Gates.LoadedContractOk | internal/evaluation/evaluate.go:379-394 | a loaded contract passes the evaluator's checks of it |
| Gates.LoadedPolicyOk | internal/evaluation/evaluate.go:396-411 | a loaded policy passes the evaluator's checks of it and defines a requirement |
| ReceiptContents.GatesTaken | internal/contract/loader.go:46-104 | criteria, work unit and requirements of what loads are those of the files |
| Gates.ProvenanceExactly | internal/receipt/validate.go:24-47 | over gate documents loaded from one place, ADVISORY and CI_ASSERTED claims hinge on the CI context alone, and an AUTHORITATIVE claim holds exactly for documents of a base revision |
| Reachability.EveryPairReached | internal/verify/verify.go:43-160 | each of the five pairs is the outcome of a run that emits a receipt, advisory or authoritative: by the outcome of its evidence, a waiver, and a reference the policy lacks; an accepted risk is reachable end to end, as ADR-0008 claims |
| Reachability.RejectedTargetWitness | internal/receipt/validate.go:175-181 | runs whose documents load and whose only fault is a waiver for a requirement that has not failed are evaluated, to APPROVED if the evidence passed, and emit no receipt |
| Pipeline.AppendDiagnostics | internal/verify/verify.go:136-144 | resolver facts follow the evaluation's findings |
| Pipeline.DiagnosticsNeverBlock | internal/verify/verify.go:162-180 | resolver facts never block and pass the kernel's validation |
| IdentityLaws.IdentityClasses | internal/gitsubject/identity.go:19-79 | two accepted remotes share an identity exactly when lower-cased hosts and trimmed paths agree and the host is hosted or the transport class is the same |
| IdentityLaws.IdentityDecodes | internal/gitsubject/identity.go:19-79 | every identity reads back, in one way, as the class of remotes it stands for |
| IdentityLaws.AcceptedNames | internal/gitsubject/identity.go:81-191 | whatever the grammar, an accepted remote's identity is the text of the class it is read as |
| IdentityFixpoints.Fixpoints | internal/gitsubject/identity.go:19-79 | an identity canonicalizes to itself exactly unless its path still ends in .git, it is hosted with @ in its path, or it is http, https or ssh and ends in a space |
| IdentityFixpoints.ProducedAgain | internal/gitsubject/identity.go:19-79 | the same for every class the canonicalizer can produce, in each transport |
| IdentityFixpoints.UrlSpelling | internal/gitsubject/identity.go:81-152 | a well-formed URL is accepted exactly when it does not end in a space and its trimmed path is unambiguous, with the identity of its class |
| IdentityFixpoints.ScpSpelling | internal/gitsubject/identity.go:154-191 | a remote git@host:path in the SCP-like grammar is accepted exactly when its host is bare, its path is relative, trims to an unambiguous one and does not end in a space, and neither holds a refused character; its identity is that of its class |
| IdentityAcceptance.UrlAcceptedExactly | internal/gitsubject/identity.go:81-152 | a text with :// is accepted, if and only if, when it spells out a listed scheme, the scheme's user, a bare host, at most an empty port, an unambiguous path and empty query and fragment marks at most; its identity is then that of transport, host and path |
| IdentityAcceptance.UrlRefused | internal/gitsubject/identity.go:95-119 | every URL with a port, a query or a fragment is refused, with any user on http and https, and on ssh with any user but git alone |
| IdentityAcceptance.PortRefused | internal/gitsubject/identity.go:106-107 | no URL with a port is accepted, whatever host and port |
| IdentityAcceptance.ScpAcceptedExactly | internal/gitsubject/identity.go:154-191 | a text with @ and no :// is accepted exactly as git@host:path with an acceptable host and path |
| IdentityAcceptance.HostedAcceptedExactly | internal/gitsubject/identity.go:59-78 | a bare text is accepted exactly when it is the canonical host/path of a hosted provider, as itself |
| IdentityAcceptance.ScpIdentityAcceptedExactly | internal/gitsubject/identity.go:34-57 | an ssh+scp text is accepted exactly when it is git@ and canonical host/path of no hosted provider, as itself |
| IdentityAcceptance.LocalAcceptedExactly | internal/gitsubject/identity.go:19-32 | a local identity is accepted exactly when 64 lower-case hexadecimal digits follow its prefix |
| IdentityParts.PathExactly | internal/gitsubject/identity.go:211-227 | a path is accepted exactly when it is not empty, holds no refused character and, between slashes, nothing empty, no . and no .. |
| IdentityParts.TrimmedExactly | internal/gitsubject/identity.go:207-209 | trimming drops one slash in front, one behind and then one .git, each exactly when it is there |
| IdentityParts.HostExactly | internal/gitsubject/identity.go:198-205 | a host is accepted exactly when it is not empty, holds none of seven characters and has no white space at either end |
| IdentityParts.HostedExactly | internal/gitsubject/identity.go:13-17 | exactly three providers, in any case, have one identity for all transports |
| IdentityParts.LowerExactly | internal/gitsubject/identity.go:198-205 | the 26 upper-case letters are lowered, and nothing else changes |
| IdentityParts.ContainsExactly | internal/gitsubject/identity.go:59-60 | one text contains another exactly when it is something, that text, and something |
| IdentityParts.PrefixExactly | internal/gitsubject/identity.go:19-36 | the same of prefixes |
| IdentityParts.SuffixExactly | internal/gitsubject/identity.go:207-209 | the same of suffixes |
| IdentityParts.IdentifierExactly | internal/evaluation/evaluate.go:22-26 | an identifier is a letter or digit and up to 127 letters, digits, dots, underscores and dashes |
| IdentityParts.ObjectIdExactly | internal/gitsubject/identity.go:246-256 | an object id is 40 lower-case hexadecimal digits, or those and 24 more |
| IdentityFixpoints.HostedSpellingsAgree | internal/gitsubject/identity.go:13-17 | on a hosted provider http, https, ssh and SCP-like spellings all have the one identity host/path |
| IdentityFixpoints.NotIdempotent | internal/gitsubject/identity.go:207-209 | a remote ending in .git.git loses one .git per canonicalization |
| IdentityFixpoints.TrailingSpaceRefused | internal/gitsubject/identity.go:85-93 | a URL path with a space before its final slash is accepted, and the identity it yields, ending in that space, is refused |
| IdentityFixpoints.HostedAtOccurs | internal/gitsubject/identity.go:59-78 | a hosted URL with @ in its path is accepted, and the identity it yields is refused |
| IdentityFixpoints.PathShape | internal/gitsubject/identity.go:207-225 | an accepted path has no empty segment, outer slash or forbidden character, and is shortened again only by a .git ending |
| Identity.CanonicalHostPath | internal/gitsubject/identity.go:198-228 | the segment loop accepts exactly unambiguous paths under a bare host |
| Identity.CheckLocalDigest | internal/gitsubject/identity.go:20-32 | accepts exactly 64 lower-case hexadecimal characters |
| Identity.LowerKeepsHost | internal/gitsubject/identity.go:198-205 | lower-casing a host neither adds nor hides a forbidden character |
| ChangeSet.PreimageInjective | internal/gitsubject/identity.go:230-244 | distinct accepted triples are hashed as distinct texts, whatever the mix of 40- and 64-character ids |
| ChangeSet.ChangeSetPreimage | internal/gitsubject/identity.go:230-244 | produces the text exactly for acceptable repositories and object ids |
| ChangeSet.PreimageLines | internal/gitsubject/identity.go:230-244 | the hashed text is four lines: the algorithm, the repository, the base and the head, in this order |
| ChangeSet.TripleRefused | internal/gitsubject/identity.go:230-244 | refused exactly over an empty repository, outer white space, a line-breaking character or a bad object id |
| ChangeSet.ValidateObjectId | internal/gitsubject/identity.go:246-256 | accepts exactly 40 or 64 lower-case hexadecimal characters |
| Pae.PAE | internal/attestation/dsse.go:20-29 | the appended buffer is the DSSE v1 encoding |
| Pae.RoundTrip | internal/attestation/dsse.go:15-29 | a reader of decimal lengths recovers type and payload from every encoding |
| Pae.Injective | internal/attestation/dsse.go:15-29 | equal encodings mean equal payload type and equal payload |
| Pae.DecimalValue | internal/attestation/dsse.go:20-29 | a written length reads back as itself, so lengths are self-delimiting |
| Pae.EncodingText | internal/attestation/dsse.go:20-29 | for ASCII type and payload the encoding is the text DSSEv1, length, type, length, payload, with one space between each two |
| Pae.EmptyText | internal/attestation/dsse.go:20-29 | an empty type and payload are encoded as two fields of length zero |
| Pae.NoLeadingZero | internal/attestation/dsse.go:20-29 | lengths are written without leading zeros |
| TrustRoot.ResolveKey | internal/attestation/signing.go:73-110 | the scan over issuers and keys finds the specified key or refuses |
| TrustRoot.ScanKeys | internal/attestation/signing.go:88-101 | counts one issuer's keys with the id, or names one that cannot be used |
| TrustLaws.ResolveExact | internal/attestation/signing.go:73-110 | key k is returned exactly when all windows parse, every in-window key with the id is usable and exactly one issuer/key position matches and decodes to k |
| TrustLaws.OrderIrrelevant | internal/attestation/signing.go:73-110 | reordering issuers and reordering keys inside them changes nothing |
| TrustLaws.VerifyEnvelope | internal/attestation/signing.go:114-147 | accepts exactly envelopes with one signature that verifies under the resolved key |
| TrustLaws.VerifyExact | internal/attestation/signing.go:73-147 | an envelope is accepted, if and only if, when its payload decodes, it has one signature, all windows parse, every in-window key with the id has 32 bytes, exactly one issuer and key match, and that key verifies the signature over type and payload |
| TrustLaws.SigningKeeps | internal/attestation/signing.go:13-28 | signing adds one signature with the signer's id at the end and keeps type, payload and the earlier signatures |
| TrustLaws.SignedVerifies | internal/attestation/signing.go:13-28 | a freshly signed envelope verifies under the signer's resolved key exactly when it carried no signature before |
| TrustLaws.NewEnvelopeVerifies | internal/attestation/dsse.go:46-60 | a new envelope signed once verifies under the signer's resolved key and decodes to the payload it was made from |
| TrustLaws.DoublySignedRejected | internal/attestation/signing.go:140-145 | an envelope signed twice, with any keys, never verifies |
| TrustLaws.SignatureBindsContent | internal/attestation/signing.go:114-147 | under an ideal signature, a moved signature is accepted exactly for the same payload type and payload bytes |
| StrictJson.ValidateStructure | internal/strictjson/decode.go:44-58 | accepts exactly documents whose scan leaves nothing |
| StrictJson.ScanValue | internal/strictjson/decode.go:60-116 | consumes one value from the decoder, or refuses |
| StrictJson.ScanObject | internal/strictjson/decode.go:72-97 | consumes an object's members up to its brace, refusing a key seen before |
| StrictJson.ScanArray | internal/strictjson/decode.go:98-110 | consumes an array's elements up to its bracket |
| StrictJson.Decoder.Next | internal/strictjson/decode.go:61-64 | hands out the next token and drops exactly that one |
| StrictJsonLaws.ScanTree | internal/strictjson/decode.go:60-116 | on the tokens of any tree followed by any rest, succeeds exactly when no object at any depth repeats a key, and leaves exactly the rest |
| StrictJsonLaws.ScanFindsTree | internal/strictjson/decode.go:60-116 | whatever is accepted is the tokens of a duplicate-free tree followed by what is left |
| StrictJsonLaws.AcceptsExactly | internal/strictjson/decode.go:44-58 | a document is accepted exactly when it is one duplicate-free tree |
| Shapes.ShapeExact | internal/strictjson/decode.go:133-181 | the field-name check refuses exactly values with an unknown member at some struct position, however deep |
| Jwks.KeySource.constructor | internal/appserver/github_jwks.go:31-33 | a new source has an empty table and an empty mark |
| Jwks.KeySource.Key | internal/appserver/github_jwks.go:35-63 | the new fields and the answer of one lookup, from the old fields and what the issuer would answer |
| Jwks.KeySource.Fetch | internal/appserver/github_jwks.go:65-114 | replaces the whole table by a usable document's, or leaves it |
| Jwks.DecodeKeys | internal/appserver/github_jwks.go:91-108 | the RSA entries by kid, the last one winning, or a refusal if one does not decode |
| Jwks.NoRefetch | internal/appserver/github_jwks.go:45-51 | after a lookup the same kid never fetches again at once, whether the fetch failed, missed or found it |
| Jwks.FetchBound | internal/appserver/github_jwks.go:35-63 | over every run, at most as many fetches as maximal blocks of equal consecutive kids |
| Jwks.ConsecutiveFetchesDiffer | internal/appserver/github_jwks.go:35-51 | no two consecutive fetches are for the same kid, and the first is never for the empty kid |
| Jwks.KeysFromLastDocument | internal/appserver/github_jwks.go:52-63 | every key returned comes from the last document successfully fetched |
| Jwks.AnswersExactly | internal/appserver/github_jwks.go:35-63 | lookup n of any run answers with a key exactly when the last installed table, this lookup included, holds its kid, and with that key; each error has its exact case |
| Jwks.FirstLookupServed | internal/appserver/github_jwks.go:52-63 | the first lookup of a kid the issuer serves answers with the key served |
| Jwks.UsableExactly | internal/appserver/github_jwks.go:91-108 | a document is usable exactly when every RSA entry has a modulus and an exponent that decode |
| Jwks.TableExactly | internal/appserver/github_jwks.go:91-108 | the installed table maps a kid to the last RSA entry with it, and holds no other |
| Jwks.MarkIsLastFetched | internal/appserver/github_jwks.go:47-51 | the mark is the kid of the last fetch and nothing older |
| Jwks.RefetchExactly | internal/appserver/github_jwks.go:35-51 | any lookup of a run fetches exactly when its kid is missing from the last installed table and is not the last kid fetched for |
| Jwks.OncePerKidExactly | internal/appserver/github_jwks.go:15-18 | no kid is fetched for twice in a run exactly when every lookup of a kid fetched for before finds it in the current table or finds it to be the last kid fetched for |
| Jwks.UnservedFetchEveryBlock | internal/appserver/github_jwks.go:35-63 | over every run of kids that no response serves, each block of equal kids costs one fetch, but for a first block of the empty kid: the bound is reached |
| Jwks.AlternatingRefetches | internal/appserver/github_jwks.go:15-18 | a run of three lookups, of two unserved kids in turn, that fetches twice for one kid |

## Left out

- Strings are read as ASCII: Unicode case folding, Unicode white space and invalid UTF-8 are not modelled.
- `net/url` is modelled as the scheme, authority and path split of section 3 of RFC 3986, as Go 1.26 applies it (an extra colon in a host is refused); bracketed IPv6 hosts are refused by the model, and percent-encoding is refused by the code itself.
- RFC 3339 text is an instant that may have failed to parse; time zones and leap seconds are not modelled.
- SHA-256, Ed25519, base64 and JSON marshalling are function parameters; the laws assumed of them are the `requires` of the lemmas that need them, and no hash is assumed injective.
- Error wording is not modelled; a finding's message is the name of its wording and the values put into it.
- The library sorts are one stable-sort function on values, also where the code uses an unstable sort on keys that do not repeat; how they move elements in memory is not modelled.
- File access, git subprocesses, symbolic links, the GitHub client, webhooks, OIDC and the command line are not modelled; `Pipeline.Run` takes their results as inputs.
- An envelope's optional fields (workflow, workflow revision, environment digest, exit code) can only make decoding fail; they are part of whether a file's envelope is present.
- An artifact's portability and its hash comparison are booleans of each evidence file.
- Decoding a gate document is not modelled; a gate file is its decoded document, if there is one, with the digest of its canonical form.
- Resolving the subject from git refs is not modelled; a run starts from the resolved subject and the resolver's two facts.
- The JSON lexer and the reflection over struct tags are not modelled: the scan reads tokens, and the field-name check reads a type description.
- Concurrent key lookups are not modelled: the lock is dropped between the check and the mark, so the fetch bound is for one lookup at a time.
- Parsing of trusted-root and envelope documents is not modelled; the resolver and verifier take their decoded values.
- The receipt schema's clause on a trusted protocol baseline for authoritative receipts is not modelled: the builder always emits that layer as untrusted.
- Reading a CI context from the environment is not modelled; the enumerations' validity methods, build information and exit codes are settled by one switch each.
