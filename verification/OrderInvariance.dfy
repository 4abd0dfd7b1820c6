/** The order in which evidence was ingested never shows in an evaluation. */
module OrderInvariance {
  import opened DecisionLaws
  import opened Domain
  import opened Evaluation
  import opened Facts
  import opened Inputs
  import opened Kernel
  import opened Normalization
  import opened Seqs
  import opened SortedIds
  import opened Sorting
  import opened Text
  import opened Totality
  import opened Universe
  import opened WaiverLaws
  import opened Waivers

  lemma FindingLeqTotal(f: Finding, g: Finding)
    ensures FindingLeq(f, g) || FindingLeq(g, f)
    ensures FindingLeq(f, g) && FindingLeq(g, f) ==>
      f.code == g.code && f.requirementId == g.requirementId && JoinedEvidence(f) == JoinedEvidence(g)
  {
    StringLeqTotal(f.code, g.code);
    StringLeqTotal(f.requirementId, g.requirementId);
    StringLeqTotal(JoinedEvidence(f), JoinedEvidence(g));
  }

  lemma FindingLeqTransitive(f: Finding, g: Finding, h: Finding)
    requires FindingLeq(f, g) && FindingLeq(g, h)
    ensures FindingLeq(f, h)
  {
    StringLeqTotal(f.code, g.code);
    StringLeqTotal(g.code, h.code);
    StringLeqTotal(f.requirementId, g.requirementId);
    StringLeqTotal(g.requirementId, h.requirementId);
    if f.code != g.code || g.code != h.code {
      KeyTransitive(f.code, g.code, h.code);
    } else if f.requirementId != g.requirementId || g.requirementId != h.requirementId {
      KeyTransitive(f.requirementId, g.requirementId, h.requirementId);
    } else {
      StringLeqTransitive(JoinedEvidence(f), JoinedEvidence(g), JoinedEvidence(h));
    }
  }

  /** Strictness survives a chain with one strict step. */
  lemma KeyTransitive(a: string, b: string, c: string)
    requires StringLeq(a, b) && StringLeq(b, c) && (a != b || b != c)
    ensures StringLeq(a, c) && a != c
  {
  }

  lemma FindingOrder()
    ensures TotalPreorder(FindingLeq)
  {
    forall f, g ensures FindingLeq(f, g) || FindingLeq(g, f) {
      FindingLeqTotal(f, g);
    }
    forall f, g, h | FindingLeq(f, g) && FindingLeq(g, h) ensures FindingLeq(f, h) {
      FindingLeqTransitive(f, g, h);
    }
  }

  // ---- one requirement ----

  lemma AggregateAgrees(a: seq<Outcome>, b: seq<Outcome>)
    requires forall x :: x in a <==> x in b
    ensures Aggregate(a) == Aggregate(b)
  {
  }

  lemma FactIdsPermuted(r: Requirement, items: seq<Evidence>, items': seq<Evidence>, at: int, f: Fact)
    requires Permuted(items, items')
    ensures Permuted(FactIds(r, items, at, f), FactIds(r, items', at, f))
    ensures |FactIds(r, items, at, f)| == |FactIds(r, items', at, f)|
  {
    PermutedFilter(WithFact(r, at, f), items, items');
    PermutedMap(IdOf, Filter(WithFact(r, at, f), items), Filter(WithFact(r, at, f), items'));
    PermutedMembers(FactIds(r, items, at, f), FactIds(r, items', at, f));
  }

  /** The same ids under every fact, each as often. */
  ghost predicate SameLists(s: FactLists, s': FactLists) {
    && Permuted(s.candidates, s'.candidates) && Permuted(s.revision, s'.revision) && Permuted(s.future, s'.future)
    && Permuted(s.age, s'.age) && Permuted(s.untrusted, s'.untrusted) && Permuted(s.outcomes, s'.outcomes)
  }

  lemma SortFactsPermuted(r: Requirement, items: seq<Evidence>, items': seq<Evidence>, at: int)
    requires Permuted(items, items')
    ensures SameLists(SortFacts(r, items, at), SortFacts(r, items', at))
  {
    FactIdsPermuted(r, items, items', at, Candidate);
    FactIdsPermuted(r, items, items', at, StaleRevision);
    FactIdsPermuted(r, items, items', at, StaleFuture);
    FactIdsPermuted(r, items, items', at, StaleAge);
    FactIdsPermuted(r, items, items', at, UntrustedProducer);
    PermutedFilter(WithFact(r, at, Candidate), items, items');
    PermutedMap(OutcomeOf, Filter(WithFact(r, at, Candidate), items), Filter(WithFact(r, at, Candidate), items'));
  }

  lemma SortedSetPermuted(a: seq<string>, b: seq<string>)
    requires Permuted(a, b)
    ensures SortedSet(a) == SortedSet(b) && (a == [] <==> b == [])
  {
    PermutedMembers(a, b);
    SortedSetAgrees(a, b);
  }

  lemma ResultFromAgrees(r: Requirement, s: FactLists, s': FactLists)
    requires SameLists(s, s')
    ensures ResultFrom(r, s) == ResultFrom(r, s')
    ensures ConflictFindings(r, s) == ConflictFindings(r, s')
  {
    PermutedAppend(s.revision, s'.revision, s.future, s'.future);
    PermutedAppend(s.revision + s.future, s'.revision + s'.future, s.age, s'.age);
    SortedSetPermuted(s.candidates, s'.candidates);
    SortedSetPermuted(s.Stale(), s'.Stale());
    SortedSetPermuted(s.untrusted, s'.untrusted);
    PermutedMembers(s.outcomes, s'.outcomes);
    AggregateAgrees(s.outcomes, s'.outcomes);
  }

  lemma MatchedPermuted(r: Requirement, evidence: seq<Evidence>, evidence': seq<Evidence>)
    requires Permuted(evidence, evidence')
    ensures Permuted(Matched(r, evidence), Matched(r, evidence'))
    ensures Matched(r, evidence) == [] <==> Matched(r, evidence') == []
  {
    PermutedFilter(OfType(r.evidenceType), evidence, evidence');
    PermutedMembers(Matched(r, evidence), Matched(r, evidence'));
  }

  lemma RequirementResultAgrees(r: Requirement, evidence: seq<Evidence>, evidence': seq<Evidence>, at: int)
    requires Permuted(evidence, evidence')
    ensures RequirementResultOf(r, evidence, at) == RequirementResultOf(r, evidence', at)
  {
    MatchedPermuted(r, evidence, evidence');
    SortFactsPermuted(r, Matched(r, evidence), Matched(r, evidence'), at);
    ResultFromAgrees(r, SortFacts(r, Matched(r, evidence), at), SortFacts(r, Matched(r, evidence'), at));
  }

  // ---- findings: tied ones are equal ----

  lemma FactFindingsSameClasses(f: Fact, requirementId: string, ids: seq<string>, ids': seq<string>)
    requires Permuted(ids, ids')
    ensures SameClasses(FindingLeq, FactFindings(f, requirementId, ids), FactFindings(f, requirementId, ids'))
  {
    var g := FactFindingFor(f, requirementId);
    PermutedMap(g, ids, ids');
    FindingOrder();
    forall x, y | x in Map(g, ids) && y in Map(g, ids) && FindingLeq(x, y) && FindingLeq(y, x) ensures x == y {
      var i :| 0 <= i < |ids| && Map(g, ids)[i] == x;
      var j :| 0 <= j < |ids| && Map(g, ids)[j] == y;
      FindingLeqTotal(x, y);
      assert JoinedEvidence(x) == ids[i] && JoinedEvidence(y) == ids[j];
    }
    PermutedSameClasses(FindingLeq, Map(g, ids), Map(g, ids'));
  }

  lemma FactListsSameClasses(r: Requirement, s: FactLists, s': FactLists)
    requires SameLists(s, s')
    ensures SameClasses(FindingLeq, StaleAndUntrustedFindings(r, s), StaleAndUntrustedFindings(r, s'))
  {
    var a, a' := FactFindings(StaleRevision, r.id, s.revision), FactFindings(StaleRevision, r.id, s'.revision);
    var b, b' := FactFindings(StaleFuture, r.id, s.future), FactFindings(StaleFuture, r.id, s'.future);
    var c, c' := FactFindings(StaleAge, r.id, s.age), FactFindings(StaleAge, r.id, s'.age);
    var d := FactFindings(UntrustedProducer, r.id, s.untrusted);
    var d' := FactFindings(UntrustedProducer, r.id, s'.untrusted);
    FactFindingsSameClasses(StaleRevision, r.id, s.revision, s'.revision);
    FactFindingsSameClasses(StaleFuture, r.id, s.future, s'.future);
    FactFindingsSameClasses(StaleAge, r.id, s.age, s'.age);
    FactFindingsSameClasses(UntrustedProducer, r.id, s.untrusted, s'.untrusted);
    SameClassesAppend(FindingLeq, a, a', b, b');
    SameClassesAppend(FindingLeq, a + b, a' + b', c, c');
    SameClassesAppend(FindingLeq, a + b + c, a' + b' + c', d, d');
  }

  lemma RequirementFindingsSameClasses(r: Requirement, evidence: seq<Evidence>, evidence': seq<Evidence>, at: int)
    requires Permuted(evidence, evidence')
    ensures SameClasses(FindingLeq, RequirementFindings(r, evidence, at), RequirementFindings(r, evidence', at))
  {
    MatchedPermuted(r, evidence, evidence');
    var s, s' := SortFacts(r, Matched(r, evidence), at), SortFacts(r, Matched(r, evidence'), at);
    SortFactsPermuted(r, Matched(r, evidence), Matched(r, evidence'), at);
    ResultFromAgrees(r, s, s');
    FactListsSameClasses(r, s, s');
    SameClassesAppend(FindingLeq, StaleAndUntrustedFindings(r, s), StaleAndUntrustedFindings(r, s'),
                      ConflictFindings(r, s), ConflictFindings(r, s'));
  }

  lemma {:induction false} EvidenceFindingsSameClasses(
    requirements: seq<Requirement>, evidence: seq<Evidence>, evidence': seq<Evidence>, at: int)
    requires Permuted(evidence, evidence')
    ensures SameClasses(FindingLeq, EvidenceFindings(requirements, evidence, at),
                        EvidenceFindings(requirements, evidence', at))
  {
    if requirements != [] {
      var front, last := requirements[..|requirements| - 1], requirements[|requirements| - 1];
      EvidenceFindingsSameClasses(front, evidence, evidence', at);
      assert requirements[..|requirements| - 1] == front;
      RequirementFindingsSameClasses(last, evidence, evidence', at);
      SameClassesAppend(FindingLeq, EvidenceFindings(front, evidence, at), EvidenceFindings(front, evidence', at),
                        RequirementFindings(last, evidence, at), RequirementFindings(last, evidence', at));
    }
  }

  // ---- the whole evaluation ----

  lemma ClassifyContext(w: Waiver, r: RequirementResult, input: Input, input': Input)
    requires input.subject == input'.subject && input.contract == input'.contract
    requires input.evaluatedAt == input'.evaluatedAt
    ensures ClassifyAgainst(w, r, input) == ClassifyAgainst(w, r, input')
  {
  }

  /** The pass reads nothing of the input but its subject, its work unit and the instant. */
  lemma {:induction false} ApplyAllContext(
    results: seq<RequirementResult>, waivers: seq<Waiver>, input: Input, input': Input)
    requires input.subject == input'.subject && input.contract == input'.contract
    requires input.evaluatedAt == input'.evaluatedAt
    ensures ApplyAll(results, waivers, input) == ApplyAll(results, waivers, input')
  {
    if waivers != [] {
      var front, w := waivers[..|waivers| - 1], waivers[|waivers| - 1];
      ApplyAllContext(results, front, input, input');
      var p, index := ApplyAll(results, front, input), IndexMap(results);
      if w.targetId in index {
        ClassifyContext(w, p.results[index[w.targetId]], input, input');
      }
      assert Step(p, w, index, input) == Step(p, w, index, input');
    }
  }

  lemma BaseResultsAgree(input: Input, evidence': seq<Evidence>)
    requires Permuted(input.evidence, evidence')
    ensures BaseResults(input) == BaseResults(input.(evidence := evidence'))
  {
    forall i | 0 <= i < |input.policy.requirements|
      ensures BaseResults(input)[i] == BaseResults(input.(evidence := evidence'))[i]
    {
      RequirementResultAgrees(input.policy.requirements[i], input.evidence, evidence', input.evaluatedAt);
    }
  }

  /** Evaluation does not depend on the order in which evidence was ingested. */
  lemma EvidenceOrderIrrelevant(input: Input, evidence': seq<Evidence>)
    requires Permuted(input.evidence, evidence')
    ensures var input' := input.(evidence := evidence'); (
      && OutputsOf(input') == OutputsOf(input)
      && (InputOk(input') <==> InputOk(input)) && (KernelAccepts(input') <==> KernelAccepts(input)))
  {
    var input' := input.(evidence := evidence');
    BaseResultsAgree(input, evidence');
    ApplyAllContext(BaseResults(input), input.waivers, input, input');
    EvidenceFindingsSameClasses(input.policy.requirements, input.evidence, evidence', input.evaluatedAt);
    var u := UniverseFindings(input.contract.criteria, input.policy.requirements);
    var w := WaiverPass(input).findings;
    SameClassesAppend(FindingLeq, u, u,
                      EvidenceFindings(input.policy.requirements, input.evidence, input.evaluatedAt),
                      EvidenceFindings(input.policy.requirements, evidence', input.evaluatedAt));
    SameClassesAppend(FindingLeq, BaseFindings(input), BaseFindings(input'), w, w);
    FindingOrder();
    SortAgrees(FindingLeq, BaseFindings(input) + w, BaseFindings(input') + w);
  }

  // ---- the order of waiver records ----

  lemma ReorderedInputOk(input: Input, waivers': seq<Waiver>)
    requires InputOk(input) && Permuted(input.waivers, waivers')
    ensures InputOk(input.(waivers := waivers')) && BaseResults(input.(waivers := waivers')) == BaseResults(input)
  {
    PermutedMembers(input.waivers, waivers');
  }

  lemma ReorderedResults(input: Input, waivers': seq<Waiver>)
    requires InputOk(input) && Permuted(input.waivers, waivers')
    ensures WaiverPass(input.(waivers := waivers')).results == WaiverPass(input).results
  {
    ReorderedInputOk(input, waivers');
    BaseResultsUnwaived(input);
    RecordOrderIrrelevant(BaseResults(input), input.waivers, waivers', input);
    ApplyAllContext(BaseResults(input), waivers', input, input.(waivers := waivers'));
  }

  lemma ReorderedBlocking(input: Input, waivers': seq<Waiver>)
    requires InputOk(input) && Permuted(input.waivers, waivers')
    ensures SomeBlocking(Findings(input.(waivers := waivers'))) <==> SomeBlocking(Findings(input))
  {
    ReorderedInputOk(input, waivers');
    BlockingMeaning(input);
    BlockingMeaning(input.(waivers := waivers'));
  }

  /** The kernel looks at findings only for one that blocks. */
  lemma JudgeBlocking(rs: seq<RequirementResult>, fs: seq<Finding>, fs': seq<Finding>)
    requires SomeBlocking(fs) <==> SomeBlocking(fs')
    ensures Judge(rs, fs) == Judge(rs, fs')
  {
  }

  lemma ReorderedAccepted(input: Input, waivers': seq<Waiver>)
    requires InputOk(input) && Permuted(input.waivers, waivers')
    ensures KernelAccepts(input.(waivers := waivers')) <==> KernelAccepts(input)
  {
    ReorderedInputOk(input, waivers');
    PermutedMembers(input.waivers, waivers');
    KernelTotality(input);
    KernelTotality(input.(waivers := waivers'));
  }

  /**
   The order of the waiver records shows neither in the requirements nor in
   the verdict and decision, nor in whether the evaluation succeeds.
   */
  lemma WaiverOrderIrrelevant(input: Input, waivers': seq<Waiver>)
    requires InputOk(input) && Permuted(input.waivers, waivers')
    ensures var input' := input.(waivers := waivers'); (
      && InputOk(input') && (KernelAccepts(input') <==> KernelAccepts(input))
      && OutputsOf(input').requirements == OutputsOf(input).requirements
      && OutputsOf(input').verdict == OutputsOf(input).verdict)
  {
    ReorderedInputOk(input, waivers');
    ReorderedAccepted(input, waivers');
    ReorderedResults(input, waivers');
    ReorderedBlocking(input, waivers');
    JudgeBlocking(WaiverPass(input).results, Findings(input), Findings(input.(waivers := waivers')));
  }
}
