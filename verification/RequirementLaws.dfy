/** What one requirement's result and findings say about its matched envelopes. */
module RequirementLaws {
  import opened Domain
  import opened Facts
  import opened Inputs
  import opened Normalization
  import opened Seqs
  import opened SortedIds

  /** Envelope `e` is matched by `r` and is a candidate for it. */
  predicate Usable(r: Requirement, e: Evidence, at: int) {
    e.evidenceType == r.evidenceType && HasFact(r, e, at, Candidate)
  }

  /** Something matches, and everything that matches is a candidate. */
  predicate AllUsable(r: Requirement, evidence: seq<Evidence>, at: int) {
    && (exists e :: e in evidence && e.evidenceType == r.evidenceType)
    && (forall e :: e in evidence && e.evidenceType == r.evidenceType ==> HasFact(r, e, at, Candidate))
  }

  /** Some usable envelope has the outcome. */
  predicate Observed(r: Requirement, evidence: seq<Evidence>, at: int, outcome: Outcome) {
    exists e :: e in evidence && Usable(r, e, at) && e.outcome == outcome
  }

  predicate Passing(r: Requirement, evidence: seq<Evidence>, at: int) {
    AllUsable(r, evidence, at) && !Observed(r, evidence, at, Failed) && !Observed(r, evidence, at, Errored)
  }

  /** The candidates establish a failure. */
  predicate CandidateFailure(r: Requirement, evidence: seq<Evidence>, at: int) {
    Observed(r, evidence, at, Failed) && !Observed(r, evidence, at, Passed) && !Observed(r, evidence, at, Errored)
  }

  predicate Failing(r: Requirement, evidence: seq<Evidence>, at: int) {
    AllUsable(r, evidence, at) && CandidateFailure(r, evidence, at)
  }

  /** With the outcomes the loader admits: all PASSED, or all FAILED. */
  lemma KnownOutcomes(r: Requirement, evidence: seq<Evidence>, at: int)
    requires forall e :: e in evidence ==> e.outcome.Known()
    ensures Passing(r, evidence, at) <==> (
      && AllUsable(r, evidence, at)
      && forall e :: e in evidence && e.evidenceType == r.evidenceType ==> e.outcome == Passed)
    ensures Failing(r, evidence, at) <==> (
      && AllUsable(r, evidence, at)
      && forall e :: e in evidence && e.evidenceType == r.evidenceType ==> e.outcome == Failed)
  {
  }

  /** The table of facts, for every envelope. */
  lemma FactsTable(r: Requirement, at: int)
    ensures forall e, f :: DeriveFact(r, e, at) == f <==> HasFact(r, e, at, f)
  {
    forall e, f ensures DeriveFact(r, e, at) == f <==> HasFact(r, e, at, f) {
      FactTable(r, e, at, f);
    }
  }

  lemma FactListMembers(r: Requirement, evidence: seq<Evidence>, at: int, f: Fact)
    ensures FactIds(r, Matched(r, evidence), at, f) == []
       <==> forall e :: e in evidence && e.evidenceType == r.evidenceType ==> !HasFact(r, e, at, f)
  {
    FactsTable(r, at);
    var items := Filter(WithFact(r, at, f), Matched(r, evidence));
    if items != [] {
      assert items[0] in items;
    }
  }

  lemma OutcomeMembers(r: Requirement, evidence: seq<Evidence>, at: int, outcome: Outcome)
    ensures outcome in CandidateOutcomes(r, Matched(r, evidence), at) <==> Observed(r, evidence, at, outcome)
  {
    var items := Filter(WithFact(r, at, Candidate), Matched(r, evidence));
    MapMembers(OutcomeOf, items);
    FactsTable(r, at);
    forall e ensures e in items <==> e in evidence && Usable(r, e, at) {
    }
  }

  lemma FactFindingsBlock(f: Fact, requirementId: string, ids: seq<string>)
    ensures forall x :: x in FactFindings(f, requirementId, ids) ==> x.blocking
  {
  }

  /** Every finding of a requirement blocks. */
  lemma RequirementFindingsBlock(r: Requirement, evidence: seq<Evidence>, at: int)
    ensures forall f :: f in RequirementFindings(r, evidence, at) ==> f.blocking
  {
    var s := SortFacts(r, Matched(r, evidence), at);
    FactFindingsBlock(StaleRevision, r.id, s.revision);
    FactFindingsBlock(StaleFuture, r.id, s.future);
    FactFindingsBlock(StaleAge, r.id, s.age);
    FactFindingsBlock(UntrustedProducer, r.id, s.untrusted);
  }

  lemma OnlyCandidates(r: Requirement, evidence: seq<Evidence>, at: int)
    ensures var s := SortFacts(r, Matched(r, evidence), at);
      s.Stale() == [] && s.untrusted == [] <==>
        forall e :: e in evidence && e.evidenceType == r.evidenceType ==> HasFact(r, e, at, Candidate)
  {
    FactListMembers(r, evidence, at, StaleRevision);
    FactListMembers(r, evidence, at, StaleFuture);
    FactListMembers(r, evidence, at, StaleAge);
    FactListMembers(r, evidence, at, UntrustedProducer);
  }

  lemma FactListsComplete(r: Requirement, evidence: seq<Evidence>, at: int)
    ensures var s := SortFacts(r, Matched(r, evidence), at); (
      Matched(r, evidence) != [] && s.Stale() == [] && s.untrusted == [] <==> AllUsable(r, evidence, at))
    ensures AllUsable(r, evidence, at) ==> SortFacts(r, Matched(r, evidence), at).candidates != []
  {
    OnlyCandidates(r, evidence, at);
    MatchedMeaning(r, evidence, at);
    FactListMembers(r, evidence, at, Candidate);
  }

  lemma FindingsOfLists(r: Requirement, s: FactLists)
    ensures StaleAndUntrustedFindings(r, s) + ConflictFindings(r, s) == [] <==>
      s.Stale() == [] && s.untrusted == [] && !(s.candidates != [] && Passed in s.outcomes && Failed in s.outcomes)
  {
  }

  /** A requirement has no finding exactly when all its matches are candidates that do not conflict. */
  lemma NoFindings(r: Requirement, evidence: seq<Evidence>, at: int)
    ensures RequirementFindings(r, evidence, at) == [] <==>
      AllUsable(r, evidence, at) && !(Observed(r, evidence, at, Passed) && Observed(r, evidence, at, Failed))
  {
    FindingsOfLists(r, SortFacts(r, Matched(r, evidence), at));
    FactListsComplete(r, evidence, at);
    OutcomeMembers(r, evidence, at, Passed);
    OutcomeMembers(r, evidence, at, Failed);
  }

  lemma ResultOfLists(r: Requirement, s: FactLists)
    ensures var result := ResultFrom(r, s); var conflict := Failed in s.outcomes && Passed in s.outcomes; (
      && result.requirementId == r.id && result.waivable == r.waivable && result.waiverStatus.NotApplicable?
      && (result.EstablishedFailure() <==>
            s.candidates != [] && Failed in s.outcomes && Passed !in s.outcomes && Errored !in s.outcomes)
      && (result.state.ValidState? ==> result.outcome.Known())
      && (s.candidates != [] && !conflict ==>
            result.state.ValidState? && (result.outcome.Errored? <==> Errored in s.outcomes)))
  {
  }

  lemma ObservedIsListed(r: Requirement, evidence: seq<Evidence>, at: int, outcome: Outcome)
    ensures Observed(r, evidence, at, outcome) ==>
      Matched(r, evidence) != [] && SortFacts(r, Matched(r, evidence), at).candidates != []
  {
    FactListMembers(r, evidence, at, Candidate);
    if e :| e in evidence && Usable(r, e, at) && e.outcome == outcome {
      assert e in Matched(r, evidence);
    }
  }

  lemma ResultOutcome(r: Requirement, evidence: seq<Evidence>, at: int)
    ensures var result := RequirementResultOf(r, evidence, at);
      && result.requirementId == r.id && result.waivable == r.waivable && result.waiverStatus.NotApplicable?
      && (result.EstablishedFailure() <==> CandidateFailure(r, evidence, at))
      && (result.state.ValidState? ==> result.outcome.Known())
      && (AllUsable(r, evidence, at) && !(Observed(r, evidence, at, Passed) && Observed(r, evidence, at, Failed)) ==>
            result.state.ValidState?
            && (result.outcome.Errored? <==> Observed(r, evidence, at, Errored)))
  {
    ResultOfLists(r, SortFacts(r, Matched(r, evidence), at));
    ObservedIsListed(r, evidence, at, Failed);
    FactListsComplete(r, evidence, at);
    OutcomeMembers(r, evidence, at, Passed);
    OutcomeMembers(r, evidence, at, Failed);
    OutcomeMembers(r, evidence, at, Errored);
  }

  // ---- the normalization table ----

  /** Some matched envelope has the fact. */
  predicate SomeFact(r: Requirement, evidence: seq<Evidence>, at: int, f: Fact) {
    exists e :: e in evidence && e.evidenceType == r.evidenceType && HasFact(r, e, at, f)
  }

  predicate StaleFact(f: Fact) { f.StaleRevision? || f.StaleFuture? || f.StaleAge? }

  /** The facts whose envelopes a result of the given state refers to. */
  predicate Deciding(state: EvidenceState, f: Fact) {
    match state
    case ValidState => f.Candidate?
    case InvalidState => f.Candidate?
    case StaleState => StaleFact(f)
    case UntrustedState => f.UntrustedProducer?
    case _ => false
  }

  lemma StateOfLists(r: Requirement, s: FactLists)
    ensures var state := ResultFrom(r, s).state; var conflict := Failed in s.outcomes && Passed in s.outcomes; (
      && (state == InvalidState <==> s.candidates != [] && conflict)
      && (state == ValidState <==> s.candidates != [] && !conflict)
      && (state == StaleState <==> s.candidates == [] && s.Stale() != [])
      && (state == UntrustedState <==> s.candidates == [] && s.Stale() == [])
      && state != MissingState)
  {
  }

  lemma SomeFactMeaning(r: Requirement, evidence: seq<Evidence>, at: int, f: Fact)
    ensures SomeFact(r, evidence, at, f) <==> FactIds(r, Matched(r, evidence), at, f) != []
    ensures SomeFact(r, evidence, at, f) ==> Matched(r, evidence) != []
  {
    FactListMembers(r, evidence, at, f);
    MatchedMeaning(r, evidence, at);
  }

  lemma MatchedMeaning(r: Requirement, evidence: seq<Evidence>, at: int)
    ensures Matched(r, evidence) != [] <==> exists e :: e in evidence && e.evidenceType == r.evidenceType
  {
    var m := Matched(r, evidence);
    if m != [] {
      assert m[0] in m;
    }
    if e :| e in evidence && e.evidenceType == r.evidenceType {
      assert e in m;
    }
  }

  /** A result's state, read off the lists of facts. */
  lemma StateListed(r: Requirement, evidence: seq<Evidence>, at: int)
    ensures var state := RequirementResultOf(r, evidence, at).state; var s := SortFacts(r, Matched(r, evidence), at);
      var conflict := Failed in s.outcomes && Passed in s.outcomes; (
      && (state == MissingState <==> Matched(r, evidence) == [])
      && (state == InvalidState <==> s.candidates != [] && conflict)
      && (state == ValidState <==> s.candidates != [] && !conflict)
      && (state == StaleState <==> s.candidates == [] && s.Stale() != [])
      && (state == UntrustedState <==> s.candidates == [] && s.Stale() == [] && s.untrusted != []))
  {
    var s := SortFacts(r, Matched(r, evidence), at);
    StateOfLists(r, s);
    if Matched(r, evidence) != [] {
      FactsPartition(r, Matched(r, evidence), at);
      assert s.Stale() == [] <==> |s.revision| + |s.future| + |s.age| == 0;
    }
  }

  /** Which state a result has: candidates decide first, then stale envelopes, then untrusted ones. */
  lemma NormalizationTable(r: Requirement, evidence: seq<Evidence>, at: int)
    ensures var state := RequirementResultOf(r, evidence, at).state;
      var conflict := Observed(r, evidence, at, Passed) && Observed(r, evidence, at, Failed);
      var stale := SomeFact(r, evidence, at, StaleRevision) || SomeFact(r, evidence, at, StaleFuture)
                   || SomeFact(r, evidence, at, StaleAge); (
      && (state == MissingState <==> !exists e :: e in evidence && e.evidenceType == r.evidenceType)
      && (state == InvalidState <==> conflict)
      && (state == ValidState <==> SomeFact(r, evidence, at, Candidate) && !conflict)
      && (state == StaleState <==> stale && !SomeFact(r, evidence, at, Candidate))
      && (state == UntrustedState <==>
            SomeFact(r, evidence, at, UntrustedProducer) && !stale && !SomeFact(r, evidence, at, Candidate)))
  {
    StateListed(r, evidence, at);
    MatchedMeaning(r, evidence, at);
    SomeFactMeaning(r, evidence, at, Candidate);
    SomeFactMeaning(r, evidence, at, UntrustedProducer);
    StaleMeaning(r, evidence, at);
    OutcomeMembers(r, evidence, at, Passed);
    OutcomeMembers(r, evidence, at, Failed);
    ObservedIsCandidate(r, evidence, at, Passed);
  }

  /** A result has an outcome exactly when it is VALID: an error dominates a failure, and a failure a pass. */
  lemma OutcomeTable(r: Requirement, evidence: seq<Evidence>, at: int)
    ensures var result := RequirementResultOf(r, evidence, at);
      result.outcome ==
        if !result.state.ValidState? then NoOutcome
        else if Observed(r, evidence, at, Errored) then Errored
        else if Observed(r, evidence, at, Failed) then Failed
        else Passed
  {
    OutcomeMembers(r, evidence, at, Errored);
    OutcomeMembers(r, evidence, at, Failed);
    OutcomeOfLists(r, SortFacts(r, Matched(r, evidence), at));
  }

  lemma OutcomeOfLists(r: Requirement, s: FactLists)
    ensures ResultFrom(r, s).outcome ==
      if !ResultFrom(r, s).state.ValidState? then NoOutcome
      else if Errored in s.outcomes then Errored
      else if Failed in s.outcomes then Failed
      else Passed
  {
  }

  lemma StaleMeaning(r: Requirement, evidence: seq<Evidence>, at: int)
    ensures SortFacts(r, Matched(r, evidence), at).Stale() != [] <==>
      || SomeFact(r, evidence, at, StaleRevision)
      || SomeFact(r, evidence, at, StaleFuture)
      || SomeFact(r, evidence, at, StaleAge)
  {
    SomeFactMeaning(r, evidence, at, StaleRevision);
    SomeFactMeaning(r, evidence, at, StaleFuture);
    SomeFactMeaning(r, evidence, at, StaleAge);
  }

  lemma ObservedIsCandidate(r: Requirement, evidence: seq<Evidence>, at: int, outcome: Outcome)
    ensures Observed(r, evidence, at, outcome) ==> SomeFact(r, evidence, at, Candidate)
  {
  }

  /** The id is that of a matched envelope with the fact. */
  predicate NamedBy(r: Requirement, evidence: seq<Evidence>, at: int, f: Fact, id: string) {
    exists e :: e in evidence && e.evidenceType == r.evidenceType && HasFact(r, e, at, f) && e.id == id
  }

  lemma FactIdMembers(r: Requirement, evidence: seq<Evidence>, at: int, f: Fact)
    ensures forall id :: id in FactIds(r, Matched(r, evidence), at, f) <==> NamedBy(r, evidence, at, f, id)
  {
    FactsTable(r, at);
    MapMembers(IdOf, Filter(WithFact(r, at, f), Matched(r, evidence)));
  }

  /** The ids a result refers to, by list. */
  lemma ReferencesOfLists(r: Requirement, s: FactLists)
    ensures StrictlyIncreasing(ResultFrom(r, s).evidenceIds)
    ensures forall id :: id in ResultFrom(r, s).evidenceIds <==>
      match ResultFrom(r, s).state
      case StaleState => id in s.Stale()
      case UntrustedState => id in s.untrusted
      case _ => id in s.candidates
  {
    SortedSetMeaning(s.candidates);
    SortedSetMeaning(s.Stale());
    SortedSetMeaning(s.untrusted);
  }

  /** A result refers, in strictly increasing order, to exactly the matched envelopes that decided its state. */
  lemma ResultReferences(r: Requirement, evidence: seq<Evidence>, at: int)
    ensures var result := RequirementResultOf(r, evidence, at); (
      && StrictlyIncreasing(result.evidenceIds)
      && forall id :: id in result.evidenceIds <==>
           exists f :: Deciding(result.state, f) && NamedBy(r, evidence, at, f, id))
  {
    var s := SortFacts(r, Matched(r, evidence), at);
    ReferencesOfLists(r, s);
    StateOfLists(r, s);
    FactIdMembers(r, evidence, at, Candidate);
    FactIdMembers(r, evidence, at, UntrustedProducer);
    StaleIdMembers(r, evidence, at);
  }

  lemma StaleIdMembers(r: Requirement, evidence: seq<Evidence>, at: int)
    ensures forall id :: id in SortFacts(r, Matched(r, evidence), at).Stale() <==>
      exists f :: StaleFact(f) && NamedBy(r, evidence, at, f, id)
  {
    FactIdMembers(r, evidence, at, StaleRevision);
    FactIdMembers(r, evidence, at, StaleFuture);
    FactIdMembers(r, evidence, at, StaleAge);
  }

  lemma {:induction false} FactsPartition(r: Requirement, items: seq<Evidence>, at: int)
    ensures var s := SortFacts(r, items, at);
      |s.candidates| + |s.revision| + |s.future| + |s.age| + |s.untrusted| == |items|
  {
    if items != [] {
      var n := |items| - 1;
      FactsPartition(r, items[..n], at);
      SortFactsSnoc(r, items, n, at);
      assert items[..n + 1] == items;
    }
  }

  /** Every matched envelope is accounted for once: as a candidate, or by one finding of its own. */
  lemma EveryMatchAccounted(r: Requirement, evidence: seq<Evidence>, at: int)
    requires Matched(r, evidence) != []
    ensures |RequirementFindings(r, evidence, at)| + |FactIds(r, Matched(r, evidence), at, Candidate)|
         == |Matched(r, evidence)| + if RequirementResultOf(r, evidence, at).state.InvalidState? then 1 else 0
  {
    FactsPartition(r, Matched(r, evidence), at);
  }
}
