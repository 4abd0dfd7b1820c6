/** The decision kernel: from normalized requirement results and findings to a verdict and a decision. */
module Kernel {
  import opened Domain
  import opened Seqs
  import opened Text

  // ---- what the kernel promises, read off the whole input at once ----

  predicate EvidenceIdsOk(ids: seq<string>) {
    && (forall id :: id in ids ==> CanonicalIdentifier(id))
    && (forall i, j :: 0 <= i < j < |ids| ==> ids[i] != ids[j])
  }

  predicate RequirementOk(r: RequirementResult) {
    && CanonicalIdentifier(r.requirementId)
    && !r.state.OtherState?
    && EvidenceIdsOk(r.evidenceIds)
    && !r.outcome.OtherOutcome?
    && (r.state.ValidState? ==> r.evidenceIds != [] && r.outcome.Known())
    && !r.waiverStatus.OtherWaiverStatus?
    && (r.waiverStatus.WaiverValid? ==> r.waivable && r.EstablishedFailure())
  }

  predicate FindingOk(f: Finding) {
    && f.code != ""
    && !f.category.OtherCategory?
    && !f.severity.OtherSeverity?
    && (f.requirementId == "" || CanonicalIdentifier(f.requirementId))
    && EvidenceIdsOk(f.evidenceIds)
    && !f.message.NoMessage?
  }

  predicate RequirementsOk(rs: seq<RequirementResult>) {
    && (forall r :: r in rs ==> RequirementOk(r))
    && UniqueIds(rs)
  }

  predicate FindingsOk(fs: seq<Finding>) {
    forall f :: f in fs ==> FindingOk(f)
  }

  predicate Accepts(rs: seq<RequirementResult>, fs: seq<Finding>) {
    RequirementsOk(rs) && FindingsOk(fs)
  }

  predicate SomeFailure(rs: seq<RequirementResult>) {
    exists r :: r in rs && r.EstablishedFailure()
  }

  predicate SomeIndeterminate(rs: seq<RequirementResult>) {
    exists r :: r in rs && (!r.state.ValidState? || r.outcome.Errored?)
  }

  predicate SomeBlocking(fs: seq<Finding>) {
    exists f :: f in fs && f.blocking
  }

  predicate Waived(r: RequirementResult) {
    r.waivable && r.waiverStatus.WaiverValid?
  }

  predicate EveryFailureWaived(rs: seq<RequirementResult>) {
    forall r :: r in rs && r.EstablishedFailure() ==> Waived(r)
  }

  const BLOCKED_INDETERMINATE := EvaluationResult(VerdictIndeterminate, Blocked)

  /** The verdict and decision of an accepted input. */
  function Judge(rs: seq<RequirementResult>, fs: seq<Finding>): EvaluationResult {
    var stuck := SomeIndeterminate(rs) || SomeBlocking(fs);
    if rs == [] then BLOCKED_INDETERMINATE
    else if SomeFailure(rs) then
      EvaluationResult(VerdictFailed,
        if stuck then Blocked else if EveryFailureWaived(rs) then AcceptedWithRisk else Rejected)
    else if stuck then BLOCKED_INDETERMINATE
    else EvaluationResult(VerdictPassed, Approved)
  }

  // ---- the kernel as it runs ----

  datatype Fault = RequirementFault(index: nat) | FindingFault(index: nat)

  /** `fault` names the first item that cannot be accepted, requirements before findings. */
  ghost predicate FirstFault(rs: seq<RequirementResult>, fs: seq<Finding>, fault: Fault) {
    match fault
    case RequirementFault(i) => i < |rs| && RequirementsOk(rs[..i]) && !RequirementsOk(rs[..i + 1])
    case FindingFault(i) => RequirementsOk(rs) && i < |fs| && FindingsOk(fs[..i]) && !FindingOk(fs[i])
  }

  method ValidateEvidenceIds(ids: seq<string>) returns (ok: bool)
    ensures ok <==> EvidenceIdsOk(ids)
  {
    var seen: set<string> := {};
    for i := 0 to |ids|
      invariant seen == set id | id in ids[..i]
      invariant EvidenceIdsOk(ids[..i])
    {
      assert ids[..i + 1] == ids[..i] + [ids[i]];
      if !CanonicalIdentifier(ids[i]) {
        return false;
      }
      if ids[i] in seen {
        return false;
      }
      seen := seen + {ids[i]};
    }
    assert ids[..|ids|] == ids;
    ok := true;
  }

  method ValidateRequirement(r: RequirementResult) returns (ok: bool)
    ensures ok <==> RequirementOk(r)
  {
    if !CanonicalIdentifier(r.requirementId) || r.state.OtherState? {
      return false;
    }
    if r.state.ValidState? && r.evidenceIds == [] {
      return false;
    }
    var idsOk := ValidateEvidenceIds(r.evidenceIds);
    if !idsOk {
      return false;
    }
    if !r.outcome.NoOutcome? && !r.outcome.Known() {
      return false;
    }
    if r.state.ValidState? && !r.outcome.Known() {
      return false;
    }
    if r.waiverStatus.OtherWaiverStatus? {
      return false;
    }
    if r.waiverStatus.WaiverValid? && (!r.waivable || !r.state.ValidState? || !r.outcome.Failed?) {
      return false;
    }
    ok := true;
  }

  method ValidateFinding(f: Finding) returns (ok: bool)
    ensures ok <==> FindingOk(f)
  {
    if f.code == "" || f.category.OtherCategory? || f.severity.OtherSeverity? {
      return false;
    }
    if f.requirementId != "" && !CanonicalIdentifier(f.requirementId) {
      return false;
    }
    var idsOk := ValidateEvidenceIds(f.evidenceIds);
    ok := idsOk && !f.message.NoMessage?;
  }

  method CheckEveryFailureWaived(rs: seq<RequirementResult>) returns (waived: bool)
    ensures waived <==> EveryFailureWaived(rs)
  {
    for i := 0 to |rs|
      invariant EveryFailureWaived(rs[..i])
    {
      assert rs[i] in rs;
      if !rs[i].state.ValidState? || !rs[i].outcome.Failed? {
        continue;
      }
      if !rs[i].waivable || !rs[i].waiverStatus.WaiverValid? {
        return false;
      }
    }
    assert rs[..|rs|] == rs;
    waived := true;
  }

  lemma RequirementsOkSnoc(rs: seq<RequirementResult>, i: nat)
    requires i < |rs|
    ensures RequirementsOk(rs[..i + 1]) <==>
      RequirementsOk(rs[..i]) && RequirementOk(rs[i])
      && rs[i].requirementId !in (set r | r in rs[..i] :: r.requirementId)
  {
  }

  lemma SubsetOfAccepted(rs: seq<RequirementResult>, i: nat)
    requires i <= |rs| && RequirementsOk(rs)
    ensures RequirementsOk(rs[..i])
  {
  }

  method Evaluate(rs: seq<RequirementResult>, fs: seq<Finding>)
    returns (result: EvaluationResult, fault: Option<Fault>)
    ensures fault.None? <==> Accepts(rs, fs)
    ensures fault.None? ==> result == Judge(rs, fs)
    ensures fault.Some? ==> result == BLOCKED_INDETERMINATE && FirstFault(rs, fs, fault.value)
  {
    result := BLOCKED_INDETERMINATE;
    var knownFailure, indeterminate := false, false;
    var seen: set<string> := {};
    for i := 0 to |rs|
      invariant RequirementsOk(rs[..i])
      invariant seen == set r | r in rs[..i] :: r.requirementId
      invariant knownFailure <==> SomeFailure(rs[..i])
      invariant indeterminate <==> SomeIndeterminate(rs[..i])
    {
      RequirementsOkSnoc(rs, i);
      if RequirementsOk(rs) {
        SubsetOfAccepted(rs, i + 1);
      }
      var ok := ValidateRequirement(rs[i]);
      if !ok || rs[i].requirementId in seen {
        return result, Some(RequirementFault(i));
      }
      assert rs[..i + 1] == rs[..i] + [rs[i]];
      seen := seen + {rs[i].requirementId};
      if !rs[i].state.ValidState? {
        indeterminate := true;
        continue;
      }
      match rs[i].outcome
      case Failed => knownFailure := true;
      case Errored => indeterminate := true;
      case _ =>
    }
    assert rs[..|rs|] == rs;

    var hasBlocking := false;
    for i := 0 to |fs|
      invariant FindingsOk(fs[..i])
      invariant hasBlocking <==> SomeBlocking(fs[..i])
    {
      assert fs[i] in fs;
      var ok := ValidateFinding(fs[i]);
      if !ok {
        return result, Some(FindingFault(i));
      }
      assert fs[..i + 1] == fs[..i] + [fs[i]];
      hasBlocking := hasBlocking || fs[i].blocking;
    }
    assert fs[..|fs|] == fs;

    fault := None;
    if rs == [] {
      return;
    }
    var verdict := VerdictPassed;
    if knownFailure {
      verdict := VerdictFailed;
    } else if indeterminate || hasBlocking {
      verdict := VerdictIndeterminate;
    }
    if indeterminate || hasBlocking {
      return EvaluationResult(verdict, Blocked), None;
    }
    if verdict == VerdictPassed {
      return EvaluationResult(verdict, Approved), None;
    }
    var waived := CheckEveryFailureWaived(rs);
    result := EvaluationResult(verdict, if waived then AcceptedWithRisk else Rejected);
  }

  // ---- laws of the kernel ----

  lemma AcceptedPrefix(rs: seq<RequirementResult>, i: nat, j: nat)
    requires i <= j <= |rs| && RequirementsOk(rs[..j])
    ensures RequirementsOk(rs[..i])
  {
    SubsetOfAccepted(rs[..j], i);
    assert rs[..j][..i] == rs[..i];
  }

  lemma AcceptedFinding(fs: seq<Finding>, i: nat, j: nat)
    requires i < j <= |fs| && FindingsOk(fs[..j])
    ensures FindingOk(fs[i])
  {
    assert fs[i] in fs[..j];
  }

  /** Everything before a fault passes: a later fault leaves no earlier one. */
  lemma NoneBefore(rs: seq<RequirementResult>, fs: seq<Finding>, a: Fault, b: Fault)
    requires FirstFault(rs, fs, a) && FirstFault(rs, fs, b)
    ensures a.RequirementFault? ==> b.RequirementFault? && b.index <= a.index
    ensures a.FindingFault? && b.FindingFault? ==> b.index <= a.index
  {
    match a {
      case RequirementFault(i) =>
        match b {
          case RequirementFault(j) =>
            if i < j {
              AcceptedPrefix(rs, i + 1, j);
            }
          case FindingFault(_) =>
            SubsetOfAccepted(rs, i + 1);
        }
      case FindingFault(i) =>
        if b.FindingFault? && i < b.index {
          AcceptedFinding(fs, i, b.index);
        }
    }
  }

  /** One fault at most is the first: a requirement before any finding, and the lowest position. */
  lemma FirstFaultUnique(rs: seq<RequirementResult>, fs: seq<Finding>, a: Fault, b: Fault)
    requires FirstFault(rs, fs, a) && FirstFault(rs, fs, b)
    ensures a == b
  {
    NoneBefore(rs, fs, a, b);
    NoneBefore(rs, fs, b, a);
  }

  /** Only five verdict/decision pairs occur, and each says exactly this about the input. */
  lemma FivePairs(rs: seq<RequirementResult>, fs: seq<Finding>)
    requires Accepts(rs, fs)
    ensures var e := Judge(rs, fs);
      && e in {EvaluationResult(VerdictPassed, Approved), EvaluationResult(VerdictFailed, Rejected),
               EvaluationResult(VerdictFailed, AcceptedWithRisk), EvaluationResult(VerdictFailed, Blocked),
               BLOCKED_INDETERMINATE}
      && (e.verdict == VerdictFailed <==> exists r :: r in rs && r.EstablishedFailure())
      && (e.decision == Approved <==>
           rs != [] && !SomeBlocking(fs) && forall r :: r in rs ==> r.state.ValidState? && r.outcome.Passed?)
      && (e.decision == AcceptedWithRisk ==> exists r :: r in rs && r.EstablishedFailure() && Waived(r))
      && (e.decision == Rejected ==> exists r :: r in rs && r.EstablishedFailure() && !Waived(r))
  {
  }

  /** Every verdict and every decision, if and only if, on the fields of the results and findings. */
  lemma KernelTable(rs: seq<RequirementResult>, fs: seq<Finding>)
    ensures var e := Judge(rs, fs);
      var failing := exists r :: r in rs && r.state == ValidState && r.outcome == Failed;
      var unclear := exists r :: r in rs && (r.state != ValidState || r.outcome == Errored);
      var stuck := rs == [] || unclear || exists f :: f in fs && f.blocking;
      var accepted := forall r :: r in rs && r.state == ValidState && r.outcome == Failed ==>
        r.waivable && r.waiverStatus == WaiverValid; (
      && (e.verdict == VerdictFailed <==> failing)
      && (e.verdict == VerdictPassed <==> !failing && !stuck)
      && (e.decision == Blocked <==> stuck)
      && (e.decision == Approved <==> !failing && !stuck)
      && (e.decision == AcceptedWithRisk <==> failing && !stuck && accepted)
      && (e.decision == Rejected <==> failing && !stuck && !accepted))
  {
  }

  /** Findings that do not block never move the result. */
  lemma NonBlockingNeutral(rs: seq<RequirementResult>, fs: seq<Finding>, extra: seq<Finding>)
    requires forall f :: f in extra ==> !f.blocking && FindingOk(f)
    ensures Judge(rs, fs + extra) == Judge(rs, fs)
    ensures Accepts(rs, fs + extra) <==> Accepts(rs, fs)
  {
  }

  lemma BlockingAppend(a: seq<Finding>, b: seq<Finding>)
    ensures SomeBlocking(a + b) <==> SomeBlocking(a) || SomeBlocking(b)
  {
  }
}
