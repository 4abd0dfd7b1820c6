/** Waiver records: how each resolves, and the pass that applies them in order. */
module Waivers {
  import opened Domain
  import opened Inputs

  datatype Resolution = Apply | Superseded | RejectTarget | RejectScope | RejectExpired | RejectTiming

  /** The scope names the resolved subject and the work unit exactly; a head revision is optional. */
  predicate ScopeMatches(w: Waiver, input: Input) {
    && w.scopeRepository == input.subject.repositoryUri
    && (w.scopeHead == "" || w.scopeHead == input.subject.headRevision)
    && w.scopeWorkUnit == input.contract.workUnit.id
  }

  /** Positions of requirement ids; the last one wins. */
  function IndexMap(results: seq<RequirementResult>): (index: map<string, nat>)
    ensures forall id :: id in index ==> index[id] < |results| && results[index[id]].requirementId == id
    ensures forall r :: r in results ==> r.requirementId in index
  {
    if results == [] then map[]
    else IndexMap(results[..|results| - 1])[results[|results| - 1].requirementId := |results| - 1]
  }

  function ClassifyAgainst(w: Waiver, result: RequirementResult, input: Input): Resolution {
    if !result.state.ValidState? || !result.outcome.Failed? || !result.waivable then RejectTarget
    else if !ScopeMatches(w, input) then RejectScope
    else if w.issuedAt.instant.None? then RejectTiming
    else if w.expiresAt.instant.None? then RejectTiming
    else if w.expiresAt.instant.value <= input.evaluatedAt then RejectExpired
    else if w.issuedAt.instant.value > input.evaluatedAt then RejectTiming
    else if result.waiverStatus.WaiverValid? then Superseded
    else Apply
  }

  function Classify(w: Waiver, results: seq<RequirementResult>, index: map<string, nat>, input: Input): Resolution
    requires forall id :: id in index ==> index[id] < |results|
  {
    if w.targetId !in index then RejectTarget else ClassifyAgainst(w, results[index[w.targetId]], input)
  }

  function CodeOf(resolution: Resolution): string {
    match resolution
    case Apply => "WAIVER_APPLIED"
    case Superseded => "WAIVER_SUPERSEDED"
    case RejectTarget => "WAIVER_REJECTED_TARGET"
    case RejectScope => "WAIVER_REJECTED_SCOPE"
    case RejectExpired => "WAIVER_REJECTED_EXPIRED"
    case RejectTiming => "WAIVER_REJECTED_TIMING"
  }

  function WaiverFinding(resolution: Resolution, w: Waiver): Finding {
    Finding(CodeOf(resolution), WaiverCategory, if resolution.Apply? || resolution.Superseded? then Info else Warning,
            w.targetId, [], Message(CodeOf(resolution), [w.id, w.targetId]), false)
  }

  /** The record with its resolved status. */
  function Resolved(resolution: Resolution, w: Waiver): Waiver {
    w.(status := if resolution.Apply? then WaiverValid else WaiverInvalid)
  }

  datatype Pass = Pass(results: seq<RequirementResult>, resolved: seq<Waiver>, findings: seq<Finding>)

  function Step(p: Pass, w: Waiver, index: map<string, nat>, input: Input): (q: Pass)
    requires forall id :: id in index ==> index[id] < |p.results|
    ensures |q.results| == |p.results|
  {
    var resolution := Classify(w, p.results, index, input);
    Pass(
      if resolution.Apply? && w.targetId in index
      then p.results[index[w.targetId] := p.results[index[w.targetId]].(waiverStatus := WaiverValid)]
      else p.results,
      p.resolved + [Resolved(resolution, w)],
      p.findings + [WaiverFinding(resolution, w)])
  }

  /** The pass after the given records, oldest first. */
  function ApplyAll(results: seq<RequirementResult>, waivers: seq<Waiver>, input: Input): (p: Pass)
    ensures |p.results| == |results|
  {
    if waivers == [] then Pass(results, [], [])
    else Step(ApplyAll(results, waivers[..|waivers| - 1], input), waivers[|waivers| - 1], IndexMap(results), input)
  }

  method BuildIndex(results: seq<RequirementResult>) returns (index: map<string, nat>)
    ensures index == IndexMap(results)
  {
    index := map[];
    for i := 0 to |results|
      invariant index == IndexMap(results[..i])
    {
      assert results[..i + 1][..i] == results[..i];
      index := index[results[i].requirementId := i];
    }
    assert results[..|results|] == results;
  }

  method ApplyWaivers(requirements: seq<RequirementResult>, waivers: seq<Waiver>, input: Input)
    returns (results: seq<RequirementResult>, resolved: seq<Waiver>, findings: seq<Finding>)
    ensures Pass(results, resolved, findings) == ApplyAll(requirements, waivers, input)
  {
    results := requirements;
    var index := BuildIndex(results);
    resolved, findings := [], [];
    for i := 0 to |waivers|
      invariant |results| == |requirements|
      invariant Pass(results, resolved, findings) == ApplyAll(requirements, waivers[..i], input)
    {
      assert waivers[..i + 1][..i] == waivers[..i];
      var record := waivers[i];
      var entry := record;
      var resolution := Classify(record, results, index, input);
      if resolution.Apply? {
        entry := entry.(status := WaiverValid);
        results := results[index[record.targetId] := results[index[record.targetId]].(waiverStatus := WaiverValid)];
      } else {
        entry := entry.(status := WaiverInvalid);
      }
      findings := findings + [WaiverFinding(resolution, record)];
      resolved := resolved + [entry];
    }
    assert waivers[..|waivers|] == waivers;
  }

  // ---- what the pass achieves ----

  /** The record is in force at the instant. */
  predicate InForce(w: Waiver, at: int) {
    && w.issuedAt.instant.Some? && w.issuedAt.instant.value <= at
    && w.expiresAt.instant.Some? && at < w.expiresAt.instant.value
  }

  predicate WaivableFailure(r: RequirementResult) {
    r.EstablishedFailure() && r.waivable
  }

  /** The record covers the requirement: a waivable failure, in scope and in force. */
  predicate Covers(w: Waiver, r: RequirementResult, input: Input) {
    && w.targetId == r.requirementId && WaivableFailure(r)
    && ScopeMatches(w, input) && InForce(w, input.evaluatedAt)
  }

  predicate Covered(r: RequirementResult, waivers: seq<Waiver>, input: Input) {
    exists w :: w in waivers && Covers(w, r, input)
  }

  /** The record covers some requirement. */
  predicate Applicable(w: Waiver, results: seq<RequirementResult>, input: Input) {
    exists r :: r in results && Covers(w, r, input)
  }

  /** Some record before position `j` is applicable to the same target. */
  predicate Preempted(waivers: seq<Waiver>, j: nat, results: seq<RequirementResult>, input: Input)
    requires j < |waivers|
  {
    exists i :: 0 <= i < j && waivers[i].targetId == waivers[j].targetId && Applicable(waivers[i], results, input)
  }

  /** Results as they leave normalization. */
  ghost predicate Unwaived(results: seq<RequirementResult>) {
    UniqueIds(results) && forall r :: r in results ==> r.waiverStatus.NotApplicable?
  }

  function WithStatus(r: RequirementResult, waivers: seq<Waiver>, input: Input): RequirementResult {
    if Covered(r, waivers, input) then r.(waiverStatus := WaiverValid) else r
  }
}
