/** What applying waivers achieves: conservation, one VALID record per waived requirement, order. */
module WaiverLaws {
  import opened Domain
  import opened Inputs
  import opened Seqs
  import opened Waivers

  function StatusFor(waivers: seq<Waiver>, input: Input): RequirementResult -> RequirementResult {
    (r: RequirementResult) => WithStatus(r, waivers, input)
  }

  /** The results with the statuses the records earn, whatever the order of the records. */
  function WithStatuses(results: seq<RequirementResult>, waivers: seq<Waiver>, input: Input): seq<RequirementResult> {
    Map(StatusFor(waivers, input), results)
  }

  predicate TargetsWaivableFailure(w: Waiver, results: seq<RequirementResult>) {
    exists r :: r in results && r.requirementId == w.targetId && WaivableFailure(r)
  }

  /** How record `j` resolves, read off the records and the normalized results. */
  function ResolutionOf(waivers: seq<Waiver>, j: nat, results: seq<RequirementResult>, input: Input): Resolution
    requires j < |waivers|
  {
    var w := waivers[j];
    if Applicable(w, results, input) then if Preempted(waivers, j, results, input) then Superseded else Apply
    else Rejection(w, TargetsWaivableFailure(w, results), input)
  }

  /** Why a record that covers nothing is rejected: its target, then its scope, then its dates. */
  function Rejection(w: Waiver, targetOk: bool, input: Input): Resolution {
    if !targetOk then RejectTarget
    else if !ScopeMatches(w, input) then RejectScope
    else if w.issuedAt.instant.Some? && w.expiresAt.instant.Some? && w.expiresAt.instant.value <= input.evaluatedAt
    then RejectExpired
    else RejectTiming
  }

  lemma IndexUnique(results: seq<RequirementResult>, k: nat)
    requires UniqueIds(results) && k < |results|
    ensures results[k].requirementId in IndexMap(results) && IndexMap(results)[results[k].requirementId] == k
  {
  }

  lemma CoveredSnoc(r: RequirementResult, waivers: seq<Waiver>, w: Waiver, input: Input)
    ensures Covered(r, waivers + [w], input) <==> Covered(r, waivers, input) || Covers(w, r, input)
  {
  }

  /** Over unique ids, a record with a known target covers at most the result at that position. */
  lemma ApplicableAt(w: Waiver, results: seq<RequirementResult>, k: nat, input: Input)
    requires UniqueIds(results) && k < |results| && results[k].requirementId == w.targetId
    ensures Applicable(w, results, input) <==> Covers(w, results[k], input)
    ensures TargetsWaivableFailure(w, results) <==> WaivableFailure(results[k])
  {
  }

  lemma ClassifyUnknown(waivers: seq<Waiver>, j: nat, results: seq<RequirementResult>, input: Input)
    requires j < |waivers| && waivers[j].targetId !in IndexMap(results)
    ensures ResolutionOf(waivers, j, results, input) == RejectTarget
    ensures forall r :: r in results ==> !Covers(waivers[j], r, input)
  {
  }

  lemma CoveredIsPreempted(waivers: seq<Waiver>, j: nat, results: seq<RequirementResult>, k: nat, input: Input)
    requires UniqueIds(results) && j < |waivers| && k < |results| && results[k].requirementId == waivers[j].targetId
    ensures Covered(results[k], waivers[..j], input) <==> Preempted(waivers, j, results, input)
  {
  }

  lemma ClassifyAgainstMeaning(w: Waiver, r: RequirementResult, earlier: seq<Waiver>, input: Input)
    requires r.waiverStatus.NotApplicable? && w.targetId == r.requirementId
    ensures ClassifyAgainst(w, WithStatus(r, earlier, input), input)
         == if Covers(w, r, input) then if Covered(r, earlier, input) then Superseded else Apply
            else Rejection(w, WaivableFailure(r), input)
  {
  }

  /** The code's classification of record `j`, after the records before it, is its declared resolution. */
  lemma ClassifyMeaning(waivers: seq<Waiver>, j: nat, results: seq<RequirementResult>, input: Input)
    requires Unwaived(results) && j < |waivers|
    ensures Classify(waivers[j], WithStatuses(results, waivers[..j], input), IndexMap(results), input)
         == ResolutionOf(waivers, j, results, input)
  {
    var w, now := waivers[j], WithStatuses(results, waivers[..j], input);
    if w.targetId !in IndexMap(results) {
      ClassifyUnknown(waivers, j, results, input);
    } else {
      var k := IndexMap(results)[w.targetId];
      assert results[k] in results;
      ApplicableAt(w, results, k, input);
      CoveredIsPreempted(waivers, j, results, k, input);
      ClassifyAgainstMeaning(w, results[k], waivers[..j], input);
    }
  }

  /** A record that resolves to anything but APPLY changes no status. */
  lemma UnappliedChangesNothing(results: seq<RequirementResult>, waivers: seq<Waiver>, j: nat, i: nat, input: Input)
    requires Unwaived(results) && j < |waivers| && i < |results|
    requires ResolutionOf(waivers, j, results, input) != Apply || waivers[j].targetId != results[i].requirementId
    ensures WithStatus(results[i], waivers[..j + 1], input) == WithStatus(results[i], waivers[..j], input)
  {
  }

  lemma AppliedSetsStatus(results: seq<RequirementResult>, waivers: seq<Waiver>, j: nat, i: nat, input: Input)
    requires Unwaived(results) && j < |waivers| && i < |results|
    requires ResolutionOf(waivers, j, results, input) == Apply && waivers[j].targetId == results[i].requirementId
    ensures WithStatus(results[i], waivers[..j + 1], input)
         == WithStatus(results[i], waivers[..j], input).(waiverStatus := WaiverValid)
  {
  }

  /** The results with the status at the target's position set. */
  function Marked(now: seq<RequirementResult>, index: map<string, nat>, id: string): (r: seq<RequirementResult>)
    requires forall x :: x in index ==> index[x] < |now|
    ensures |r| == |now|
  {
    if id in index then now[index[id] := now[index[id]].(waiverStatus := WaiverValid)] else now
  }

  lemma StatusesSnocAt(results: seq<RequirementResult>, waivers: seq<Waiver>, j: nat, i: nat, input: Input)
    requires Unwaived(results) && j < |waivers| && i < |results|
    ensures var now := WithStatuses(results, waivers[..j], input); (
      var next := if ResolutionOf(waivers, j, results, input).Apply?
                  then Marked(now, IndexMap(results), waivers[j].targetId) else now;
      WithStatus(results[i], waivers[..j + 1], input) == next[i])
  {
    IndexUnique(results, i);
    if ResolutionOf(waivers, j, results, input).Apply? && waivers[j].targetId == results[i].requirementId {
      AppliedSetsStatus(results, waivers, j, i, input);
    } else {
      UnappliedChangesNothing(results, waivers, j, i, input);
    }
  }

  /** The statuses after one more record. */
  lemma StatusesSnoc(results: seq<RequirementResult>, waivers: seq<Waiver>, j: nat, input: Input)
    requires Unwaived(results) && j < |waivers|
    ensures WithStatuses(results, waivers[..j + 1], input) ==
      if ResolutionOf(waivers, j, results, input).Apply?
      then Marked(WithStatuses(results, waivers[..j], input), IndexMap(results), waivers[j].targetId)
      else WithStatuses(results, waivers[..j], input)
  {
    var now, after := WithStatuses(results, waivers[..j], input), WithStatuses(results, waivers[..j + 1], input);
    var next := if ResolutionOf(waivers, j, results, input).Apply?
                then Marked(now, IndexMap(results), waivers[j].targetId) else now;
    forall i | 0 <= i < |results| ensures after[i] == next[i] {
      StatusesSnocAt(results, waivers, j, i, input);
    }
    assert after == next;
  }

  lemma ResolutionOfPrefix(waivers: seq<Waiver>, n: nat, j: nat, results: seq<RequirementResult>, input: Input)
    requires j < n <= |waivers|
    ensures ResolutionOf(waivers[..n], j, results, input) == ResolutionOf(waivers, j, results, input)
  {
  }

  /** Position `j` holds what record `j` resolves to. */
  ghost predicate ResolvedAt(p: Pass, j: nat, waivers: seq<Waiver>, results: seq<RequirementResult>, input: Input)
    requires j < |waivers| && |p.resolved| == |waivers| && |p.findings| == |waivers|
  {
    var resolution := ResolutionOf(waivers, j, results, input);
    p.resolved[j] == Resolved(resolution, waivers[j]) && p.findings[j] == WaiverFinding(resolution, waivers[j])
  }

  /** The records and findings of a pass, position by position. */
  ghost predicate ResolvedInOrder(p: Pass, waivers: seq<Waiver>, results: seq<RequirementResult>, input: Input) {
    && |p.resolved| == |waivers| && |p.findings| == |waivers|
    && forall j :: 0 <= j < |waivers| ==> ResolvedAt(p, j, waivers, results, input)
  }

  lemma ResolvedSnoc(q: Pass, p: Pass, waivers: seq<Waiver>, results: seq<RequirementResult>, input: Input)
    requires waivers != [] && ResolvedInOrder(q, waivers[..|waivers| - 1], results, input)
    requires |p.resolved| == |p.findings| == |waivers|
    requires p.resolved[..|waivers| - 1] == q.resolved && p.findings[..|waivers| - 1] == q.findings
    requires ResolvedAt(p, |waivers| - 1, waivers, results, input)
    ensures ResolvedInOrder(p, waivers, results, input)
  {
    var n := |waivers| - 1;
    forall j | 0 <= j < n ensures ResolvedAt(p, j, waivers, results, input) {
      ResolutionOfPrefix(waivers, n, j, results, input);
      assert ResolvedAt(q, j, waivers[..n], results, input);
      assert p.resolved[j] == q.resolved[j] && p.findings[j] == q.findings[j];
    }
  }

  /**
   The pass, which mutates the results it classifies against, achieves what
   the records say without any order of evaluation: the statuses they earn, and
   one resolved record and one finding per record, in order.
   */
  lemma {:induction false} PassMeaning(results: seq<RequirementResult>, waivers: seq<Waiver>, input: Input)
    requires Unwaived(results)
    ensures var p := ApplyAll(results, waivers, input); (
      && p.results == WithStatuses(results, waivers, input)
      && ResolvedInOrder(p, waivers, results, input))
  {
    if waivers == [] {
      assert WithStatuses(results, [], input) == results;
    } else {
      var n := |waivers| - 1;
      PassMeaning(results, waivers[..n], input);
      var q := ApplyAll(results, waivers[..n], input);
      assert waivers[..n + 1] == waivers;
      ClassifyMeaning(waivers, n, results, input);
      StatusesSnoc(results, waivers, n, input);
      ResolvedSnoc(q, ApplyAll(results, waivers, input), waivers, results, input);
    }
  }

  /** Record `j` reappears with only its status resolved, beside one non-blocking finding about its target. */
  ghost predicate ConservedAt(p: Pass, waivers: seq<Waiver>, j: nat)
    requires j < |waivers| && |p.resolved| == |waivers| && |p.findings| == |waivers|
  {
    && p.resolved[j] == waivers[j].(status := p.resolved[j].status)
    && p.findings[j].requirementId == waivers[j].targetId && !p.findings[j].blocking
    && (p.resolved[j].status == WaiverValid <==> p.findings[j].code == "WAIVER_APPLIED")
  }

  lemma ResolvedIsConserved(p: Pass, waivers: seq<Waiver>, results: seq<RequirementResult>, j: nat, input: Input)
    requires |p.resolved| == |p.findings| == |waivers| && j < |waivers| && ResolvedAt(p, j, waivers, results, input)
    ensures ConservedAt(p, waivers, j)
  {
  }

  /** No record is lost, reordered or rewritten: only its status is resolved. */
  lemma RecordsConserved(results: seq<RequirementResult>, waivers: seq<Waiver>, input: Input)
    requires Unwaived(results)
    ensures var p := ApplyAll(results, waivers, input);
      |p.resolved| == |waivers| && |p.findings| == |waivers|
      && forall j :: 0 <= j < |waivers| ==> ConservedAt(p, waivers, j)
  {
    PassMeaning(results, waivers, input);
    var p := ApplyAll(results, waivers, input);
    forall j | 0 <= j < |waivers| ensures ConservedAt(p, waivers, j) {
      ResolvedIsConserved(p, waivers, results, j, input);
    }
  }

  /** Position `j` holds the first record that covers the requirement. */
  ghost predicate FirstCover(waivers: seq<Waiver>, j: int, r: RequirementResult, input: Input) {
    0 <= j < |waivers| && Covers(waivers[j], r, input) && forall i :: 0 <= i < j ==> !Covers(waivers[i], r, input)
  }

  lemma {:induction false} FirstCoverExists(waivers: seq<Waiver>, r: RequirementResult, input: Input)
    requires Covered(r, waivers, input)
    ensures exists j :: FirstCover(waivers, j, r, input)
  {
    var n := |waivers| - 1;
    assert waivers == waivers[..n] + [waivers[n]];
    CoveredSnoc(r, waivers[..n], waivers[n], input);
    if Covered(r, waivers[..n], input) {
      FirstCoverExists(waivers[..n], r, input);
      var j :| FirstCover(waivers[..n], j, r, input);
      assert FirstCover(waivers, j, r, input);
    } else {
      assert forall i :: 0 <= i < n ==> waivers[i] in waivers[..n];
      assert FirstCover(waivers, n, r, input);
    }
  }

  lemma AppliedIsFirstCover(results: seq<RequirementResult>, waivers: seq<Waiver>, j: nat, k: nat, input: Input)
    requires Unwaived(results) && j < |waivers| && k < |results| && waivers[j].targetId == results[k].requirementId
    ensures ResolutionOf(waivers, j, results, input) == Apply <==> FirstCover(waivers, j, results[k], input)
  {
  }

  /** A requirement ends up waived exactly when some record covers it. */
  lemma WaivedIffCovered(results: seq<RequirementResult>, waivers: seq<Waiver>, k: nat, input: Input)
    requires Unwaived(results) && k < |results|
    ensures ApplyAll(results, waivers, input).results[k].waiverStatus.WaiverValid?
       <==> exists j :: FirstCover(waivers, j, results[k], input)
  {
    PassMeaning(results, waivers, input);
    assert results[k] in results;
    if Covered(results[k], waivers, input) {
      FirstCoverExists(waivers, results[k], input);
    }
  }

  /**
   The record that comes out VALID for a requirement is the first that covers
   it, and only that one; an unwaived requirement has no VALID record.
   */
  lemma OneValidRecord(results: seq<RequirementResult>, waivers: seq<Waiver>, j: nat, k: nat, input: Input)
    requires Unwaived(results) && j < |waivers| && k < |results| && waivers[j].targetId == results[k].requirementId
    ensures var p := ApplyAll(results, waivers, input);
      |p.resolved| == |waivers| && (p.resolved[j].status.WaiverValid? <==> FirstCover(waivers, j, results[k], input))
  {
    PassMeaning(results, waivers, input);
    AppliedIsFirstCover(results, waivers, j, k, input);
    assert ResolvedAt(ApplyAll(results, waivers, input), j, waivers, results, input);
  }

  lemma WithStatusAgrees(r: RequirementResult, waivers: seq<Waiver>, waivers': seq<Waiver>, input: Input)
    requires forall w :: w in waivers <==> w in waivers'
    ensures WithStatus(r, waivers, input) == WithStatus(r, waivers', input)
  {
  }

  /** Reordering the records changes no requirement. */
  lemma RecordOrderIrrelevant(
    results: seq<RequirementResult>, waivers: seq<Waiver>, waivers': seq<Waiver>, input: Input)
    requires Unwaived(results) && Permuted(waivers, waivers')
    ensures ApplyAll(results, waivers, input).results == ApplyAll(results, waivers', input).results
  {
    PassMeaning(results, waivers, input);
    PassMeaning(results, waivers', input);
    PermutedMembers(waivers, waivers');
    forall i | 0 <= i < |results|
      ensures WithStatuses(results, waivers, input)[i] == WithStatuses(results, waivers', input)[i]
    {
      WithStatusAgrees(results[i], waivers, waivers', input);
    }
  }
}
