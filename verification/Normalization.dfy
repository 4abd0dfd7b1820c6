/** From matched envelopes to one requirement result and its evidence findings. */
module Normalization {
  import opened Domain
  import opened Facts
  import opened Inputs
  import opened Seqs
  import opened SortedIds

  // ---- findings ----

  function MissingFinding(r: Requirement): Finding {
    Finding("EVIDENCE_MISSING", EvidenceCategory, Error, r.id, [],
            Message("matched no evidence envelope of type", [r.id, r.evidenceType]), true)
  }

  function FactCode(f: Fact): string {
    match f
    case StaleRevision => "EVIDENCE_STALE_REVISION"
    case StaleFuture => "EVIDENCE_STALE_FUTURE"
    case StaleAge => "EVIDENCE_STALE_AGE"
    case _ => "EVIDENCE_UNTRUSTED_PRODUCER"
  }

  function FactFinding(f: Fact, requirementId: string, evidenceId: string): Finding {
    Finding(FactCode(f), EvidenceCategory, Error, requirementId, [evidenceId],
            Message(FactCode(f), [requirementId, evidenceId]), true)
  }

  function ConflictFinding(requirementId: string, candidateIds: seq<string>): Finding {
    Finding("EVIDENCE_CONFLICT", EvidenceCategory, Error, requirementId, SortedSet(candidateIds),
            Message("has conflicting candidate outcomes across evidence", [requirementId] + SortedSet(candidateIds)),
            true)
  }

  /** One finding per stale or untrusted envelope, in ingestion order. */
  function FactFindings(f: Fact, requirementId: string, ids: seq<string>): seq<Finding> {
    Map(FactFindingFor(f, requirementId), ids)
  }

  function FactFindingFor(f: Fact, requirementId: string): string -> Finding {
    (id: string) => FactFinding(f, requirementId, id)
  }

  // ---- matching ----

  function OfType(evidenceType: string): Evidence -> bool {
    (e: Evidence) => e.evidenceType == evidenceType
  }

  function Matched(r: Requirement, evidence: seq<Evidence>): seq<Evidence> {
    Filter(OfType(r.evidenceType), evidence)
  }

  /** Every position lies below `n`. */
  predicate InRange(indexes: seq<nat>, n: nat) {
    forall k :: 0 <= k < |indexes| ==> indexes[k] < n
  }

  /** The entries at the given positions. */
  function Pick(evidence: seq<Evidence>, indexes: seq<nat>): (picked: seq<Evidence>)
    requires InRange(indexes, |evidence|)
    ensures |picked| == |indexes|
    ensures forall k :: 0 <= k < |indexes| ==> picked[k] == evidence[indexes[k]]
  {
    seq(|indexes|, k requires 0 <= k < |indexes| => evidence[indexes[k]])
  }

  method MatchEnvelopes(evidenceType: string, evidence: seq<Evidence>) returns (matches: seq<nat>)
    ensures InRange(matches, |evidence|)
    ensures Pick(evidence, matches) == Filter(OfType(evidenceType), evidence)
  {
    matches := [];
    for i := 0 to |evidence|
      invariant InRange(matches, i)
      invariant Pick(evidence, matches) == Filter(OfType(evidenceType), evidence[..i])
    {
      FilterSnoc(OfType(evidenceType), evidence, i);
      if evidence[i].evidenceType == evidenceType {
        ghost var before := Pick(evidence, matches);
        matches := matches + [i];
        assert Pick(evidence, matches) == before + [evidence[i]];
      }
    }
    assert evidence[..|evidence|] == evidence;
  }

  // ---- outcomes ----

  /** Conflicting candidates are INVALID; otherwise an error dominates, then a failure. */
  function Aggregate(outcomes: seq<Outcome>): (EvidenceState, Outcome) {
    if Failed in outcomes && Passed in outcomes then (InvalidState, NoOutcome)
    else if Errored in outcomes then (ValidState, Errored)
    else if Failed in outcomes then (ValidState, Failed)
    else (ValidState, Passed)
  }

  method AggregateCandidates(outcomes: seq<Outcome>) returns (state: EvidenceState, outcome: Outcome)
    ensures (state, outcome) == Aggregate(outcomes)
  {
    var anyPassed, anyFailed, anyError := false, false, false;
    for i := 0 to |outcomes|
      invariant anyPassed <==> Passed in outcomes[..i]
      invariant anyFailed <==> Failed in outcomes[..i]
      invariant anyError <==> Errored in outcomes[..i]
    {
      assert outcomes[..i + 1] == outcomes[..i] + [outcomes[i]];
      match outcomes[i]
      case Passed => anyPassed := true;
      case Failed => anyFailed := true;
      case Errored => anyError := true;
      case _ =>
    }
    assert outcomes[..|outcomes|] == outcomes;
    if anyFailed && anyPassed {
      return InvalidState, NoOutcome;
    }
    if anyError {
      return ValidState, Errored;
    }
    if anyFailed {
      return ValidState, Failed;
    }
    return ValidState, Passed;
  }

  // ---- one requirement ----

  function IdOf(e: Evidence): string { e.id }

  function OutcomeOf(e: Evidence): Outcome { e.outcome }

  function WithFact(r: Requirement, at: int, f: Fact): Evidence -> bool {
    (e: Evidence) => DeriveFact(r, e, at) == f
  }

  /** The ids of the matched envelopes with each fact, and the candidates' outcomes, in ingestion order. */
  datatype FactLists = FactLists(
    candidates: seq<string>, revision: seq<string>, future: seq<string>, age: seq<string>, untrusted: seq<string>,
    outcomes: seq<Outcome>)
  {
    function Stale(): seq<string> { revision + future + age }
  }

  function FactIds(r: Requirement, items: seq<Evidence>, at: int, f: Fact): seq<string> {
    Map(IdOf, Filter(WithFact(r, at, f), items))
  }

  function CandidateOutcomes(r: Requirement, items: seq<Evidence>, at: int): seq<Outcome> {
    Map(OutcomeOf, Filter(WithFact(r, at, Candidate), items))
  }

  /** Matched envelopes, sorted by fact. */
  function SortFacts(r: Requirement, items: seq<Evidence>, at: int): FactLists {
    FactLists(
      FactIds(r, items, at, Candidate), FactIds(r, items, at, StaleRevision), FactIds(r, items, at, StaleFuture),
      FactIds(r, items, at, StaleAge), FactIds(r, items, at, UntrustedProducer), CandidateOutcomes(r, items, at))
  }

  function MissingResult(r: Requirement): RequirementResult {
    RequirementResult(r.id, MissingState, [], NoOutcome, r.waivable, NotApplicable)
  }

  /** Candidates come before stale envelopes, and those before untrusted ones. */
  function ResultFrom(r: Requirement, s: FactLists): RequirementResult {
    if s.candidates != [] then
      var (state, outcome) := Aggregate(s.outcomes);
      RequirementResult(r.id, state, SortedSet(s.candidates), outcome, r.waivable, NotApplicable)
    else if s.Stale() != [] then
      RequirementResult(r.id, StaleState, SortedSet(s.Stale()), NoOutcome, r.waivable, NotApplicable)
    else
      RequirementResult(r.id, UntrustedState, SortedSet(s.untrusted), NoOutcome, r.waivable, NotApplicable)
  }

  /** The conflict finding of candidates that disagree. */
  function ConflictFindings(r: Requirement, s: FactLists): seq<Finding> {
    if s.candidates != [] && Aggregate(s.outcomes).0.InvalidState? then [ConflictFinding(r.id, s.candidates)] else []
  }

  function StaleAndUntrustedFindings(r: Requirement, s: FactLists): seq<Finding> {
    FactFindings(StaleRevision, r.id, s.revision) + FactFindings(StaleFuture, r.id, s.future)
    + FactFindings(StaleAge, r.id, s.age) + FactFindings(UntrustedProducer, r.id, s.untrusted)
  }

  function RequirementResultOf(r: Requirement, evidence: seq<Evidence>, at: int): RequirementResult {
    if Matched(r, evidence) == [] then MissingResult(r)
    else ResultFrom(r, SortFacts(r, Matched(r, evidence), at))
  }

  function RequirementFindings(r: Requirement, evidence: seq<Evidence>, at: int): seq<Finding> {
    if Matched(r, evidence) == [] then [MissingFinding(r)]
    else
      var s := SortFacts(r, Matched(r, evidence), at);
      StaleAndUntrustedFindings(r, s) + ConflictFindings(r, s)
  }

  method AppendFactFindings(findings: seq<Finding>, f: Fact, requirementId: string, ids: seq<string>)
    returns (extended: seq<Finding>)
    ensures extended == findings + FactFindings(f, requirementId, ids)
  {
    extended := findings;
    for i := 0 to |ids|
      invariant extended == findings + FactFindings(f, requirementId, ids[..i])
    {
      MapSnoc(FactFindingFor(f, requirementId), ids, i);
      extended := extended + [FactFinding(f, requirementId, ids[i])];
    }
    assert ids[..|ids|] == ids;
  }

  lemma FactSnoc<U>(r: Requirement, at: int, f: Fact, g: Evidence -> U, items: seq<Evidence>, k: nat)
    requires k < |items|
    ensures Map(g, Filter(WithFact(r, at, f), items[..k + 1]))
         == Map(g, Filter(WithFact(r, at, f), items[..k]))
            + if DeriveFact(r, items[k], at) == f then [g(items[k])] else []
  {
    FilterSnoc(WithFact(r, at, f), items, k);
    MapAppend(g, Filter(WithFact(r, at, f), items[..k]), [items[k]]);
  }

  function AddFact(s: FactLists, item: Evidence, f: Fact): FactLists {
    match f
    case Candidate => s.(candidates := s.candidates + [item.id], outcomes := s.outcomes + [item.outcome])
    case StaleRevision => s.(revision := s.revision + [item.id])
    case StaleFuture => s.(future := s.future + [item.id])
    case StaleAge => s.(age := s.age + [item.id])
    case UntrustedProducer => s.(untrusted := s.untrusted + [item.id])
  }

  lemma SortFactsSnoc(r: Requirement, items: seq<Evidence>, k: nat, at: int)
    requires k < |items|
    ensures SortFacts(r, items[..k + 1], at)
         == AddFact(SortFacts(r, items[..k], at), items[k], DeriveFact(r, items[k], at))
  {
    FactSnoc(r, at, Candidate, IdOf, items, k);
    FactSnoc(r, at, StaleRevision, IdOf, items, k);
    FactSnoc(r, at, StaleFuture, IdOf, items, k);
    FactSnoc(r, at, StaleAge, IdOf, items, k);
    FactSnoc(r, at, UntrustedProducer, IdOf, items, k);
    FactSnoc(r, at, Candidate, OutcomeOf, items, k);
  }

  /** Sorts the envelopes at the matched positions by fact. */
  method SortByFact(r: Requirement, evidence: seq<Evidence>, matches: seq<nat>, at: int) returns (s: FactLists)
    requires InRange(matches, |evidence|)
    ensures s == SortFacts(r, Pick(evidence, matches), at)
  {
    ghost var items := Pick(evidence, matches);
    s := FactLists([], [], [], [], [], []);
    for k := 0 to |matches|
      invariant s == SortFacts(r, items[..k], at)
    {
      var item := evidence[matches[k]];
      SortFactsSnoc(r, items, k, at);
      var fact := Classify(r, item, at);
      match fact
      case Candidate =>
        s := s.(candidates := s.candidates + [item.id], outcomes := s.outcomes + [item.outcome]);
      case StaleRevision => s := s.(revision := s.revision + [item.id]);
      case StaleFuture => s := s.(future := s.future + [item.id]);
      case StaleAge => s := s.(age := s.age + [item.id]);
      case UntrustedProducer => s := s.(untrusted := s.untrusted + [item.id]);
    }
    assert items[..|matches|] == items;
  }

  method CollectFactFindings(r: Requirement, s: FactLists) returns (findings: seq<Finding>)
    ensures findings == StaleAndUntrustedFindings(r, s)
  {
    findings := AppendFactFindings([], StaleRevision, r.id, s.revision);
    findings := AppendFactFindings(findings, StaleFuture, r.id, s.future);
    findings := AppendFactFindings(findings, StaleAge, r.id, s.age);
    findings := AppendFactFindings(findings, UntrustedProducer, r.id, s.untrusted);
  }

  method NormalizeFacts(r: Requirement, s: FactLists) returns (result: RequirementResult, conflict: seq<Finding>)
    ensures result == ResultFrom(r, s)
    ensures conflict == ConflictFindings(r, s)
  {
    conflict := [];
    if |s.candidates| > 0 {
      var state, outcome := AggregateCandidates(s.outcomes);
      var ids := SortedList(s.candidates);
      if state == InvalidState {
        conflict := [ConflictFinding(r.id, s.candidates)];
      }
      return RequirementResult(r.id, state, ids, outcome, r.waivable, NotApplicable), conflict;
    }
    var stale := s.revision + s.future + s.age;
    if |stale| > 0 {
      var ids := SortedList(stale);
      return RequirementResult(r.id, StaleState, ids, NoOutcome, r.waivable, NotApplicable), conflict;
    }
    var ids := SortedList(s.untrusted);
    result := RequirementResult(r.id, UntrustedState, ids, NoOutcome, r.waivable, NotApplicable);
  }

  method EvaluateRequirement(r: Requirement, evidence: seq<Evidence>, at: int)
    returns (result: RequirementResult, findings: seq<Finding>)
    ensures result == RequirementResultOf(r, evidence, at)
    ensures findings == RequirementFindings(r, evidence, at)
  {
    var matches := MatchEnvelopes(r.evidenceType, evidence);
    if |matches| == 0 {
      return MissingResult(r), [MissingFinding(r)];
    }
    var s := SortByFact(r, evidence, matches, at);
    findings := CollectFactFindings(r, s);
    var conflict: seq<Finding>;
    result, conflict := NormalizeFacts(r, s);
    findings := findings + conflict;
  }
}
