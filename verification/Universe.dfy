/** The cross-check between the contract's references and the policy's requirements. */
module Universe {
  import opened Domain
  import opened Inputs
  import opened Kernel
  import opened Seqs

  /** One reference from an acceptance criterion to a requirement. */
  datatype Reference = Reference(criterion: string, requirement: string)

  function ReferenceIn(criterion: string): string -> Reference {
    (requirement: string) => Reference(criterion, requirement)
  }

  function CriterionReferences(c: Criterion): seq<Reference> {
    Map(ReferenceIn(c.id), c.requirements)
  }

  /** Every reference, in contract order. */
  function References(criteria: seq<Criterion>): seq<Reference> {
    FlatMap(CriterionReferences, criteria)
  }

  function Referenced(refs: seq<Reference>): set<string> {
    set r | r in refs :: r.requirement
  }

  function KnownIds(requirements: seq<Requirement>): set<string> {
    set r | r in requirements :: r.id
  }

  function UnknownFinding(r: Reference): Finding {
    Finding("CONTRACT_UNKNOWN_REQUIREMENT", ContractCategory, Error, r.requirement, [],
            Message("references a requirement that policy does not define", [r.criterion, r.requirement]), true)
  }

  function UnreferencedFinding(r: Requirement): Finding {
    Finding("POLICY_REQUIREMENT_UNREFERENCED", PolicyCategory, Info, r.id, [],
            Message("is referenced by no acceptance criterion", [r.id]), false)
  }

  /** A finding for the first reference to each requirement the policy lacks. */
  function UnknownFindings(refs: seq<Reference>, known: set<string>): seq<Finding> {
    if refs == [] then []
    else
      var earlier, last := refs[..|refs| - 1], refs[|refs| - 1];
      UnknownFindings(earlier, known)
      + if last.requirement in known || last.requirement in Referenced(earlier) then [] else [UnknownFinding(last)]
  }

  function Unreferenced(refs: seq<Reference>): Requirement -> bool {
    (r: Requirement) => r.id !in Referenced(refs)
  }

  function UniverseFindings(criteria: seq<Criterion>, requirements: seq<Requirement>): seq<Finding> {
    var refs := References(criteria);
    UnknownFindings(refs, KnownIds(requirements)) + Map(UnreferencedFinding, Filter(Unreferenced(refs), requirements))
  }

  /** What the first loop has gathered after some references. */
  ghost predicate Gathered(refs: seq<Reference>, known: set<string>,
                           referenced: set<string>, seenUnknown: set<string>, findings: seq<Finding>) {
    && referenced == Referenced(refs) * known
    && seenUnknown == Referenced(refs) - known
    && findings == UnknownFindings(refs, known)
  }

  method CheckReference(ghost refs: seq<Reference>, known: set<string>, r: Reference,
                        referenced: set<string>, seenUnknown: set<string>, findings: seq<Finding>)
    returns (referenced': set<string>, seenUnknown': set<string>, findings': seq<Finding>)
    requires Gathered(refs, known, referenced, seenUnknown, findings)
    ensures Gathered(refs + [r], known, referenced', seenUnknown', findings')
  {
    assert (refs + [r])[..|refs|] == refs;
    ReferencedSnoc(refs, r);
    referenced', seenUnknown', findings' := referenced, seenUnknown, findings;
    if r.requirement in known {
      referenced' := referenced + {r.requirement};
    } else if r.requirement !in seenUnknown {
      seenUnknown' := seenUnknown + {r.requirement};
      findings' := findings + [UnknownFinding(r)];
    }
  }

  lemma ReferencedSnoc(refs: seq<Reference>, r: Reference)
    ensures Referenced(refs + [r]) == Referenced(refs) + {r.requirement}
  {
  }

  method CollectUnknown(criteria: seq<Criterion>, known: set<string>)
    returns (referenced: set<string>, findings: seq<Finding>)
    ensures referenced == Referenced(References(criteria)) * known
    ensures findings == UnknownFindings(References(criteria), known)
  {
    var seenUnknown: set<string> := {};
    referenced := {};
    findings := [];
    ghost var refs: seq<Reference> := [];
    for i := 0 to |criteria|
      invariant refs == References(criteria[..i])
      invariant Gathered(refs, known, referenced, seenUnknown, findings)
    {
      var criterion := criteria[i];
      ghost var before := refs;
      for j := 0 to |criterion.requirements|
        invariant refs == before + Map(ReferenceIn(criterion.id), criterion.requirements[..j])
        invariant Gathered(refs, known, referenced, seenUnknown, findings)
      {
        MapSnoc(ReferenceIn(criterion.id), criterion.requirements, j);
        var reference := Reference(criterion.id, criterion.requirements[j]);
        referenced, seenUnknown, findings :=
          CheckReference(refs, known, reference, referenced, seenUnknown, findings);
        refs := refs + [reference];
      }
      assert criterion.requirements[..|criterion.requirements|] == criterion.requirements;
      FlatMapSnoc(CriterionReferences, criteria, i);
    }
    assert criteria[..|criteria|] == criteria;
  }

  lemma UnreferencedSnoc(refs: seq<Reference>, requirements: seq<Requirement>, i: nat)
    requires i < |requirements|
    ensures var known := Referenced(refs) * KnownIds(requirements); var keep := Unreferenced(refs);
      Map(UnreferencedFinding, Filter(keep, requirements[..i + 1]))
      == Map(UnreferencedFinding, Filter(keep, requirements[..i]))
         + if requirements[i].id in known then [] else [UnreferencedFinding(requirements[i])]
  {
    FilterSnoc(Unreferenced(refs), requirements, i);
    MapAppend(UnreferencedFinding, Filter(Unreferenced(refs), requirements[..i]), [requirements[i]]);
    assert requirements[i].id in KnownIds(requirements);
  }

  method AppendUnreferenced(findings: seq<Finding>, ghost refs: seq<Reference>,
                            requirements: seq<Requirement>, referenced: set<string>)
    returns (extended: seq<Finding>)
    requires referenced == Referenced(refs) * KnownIds(requirements)
    ensures extended == findings + Map(UnreferencedFinding, Filter(Unreferenced(refs), requirements))
  {
    extended := findings;
    for i := 0 to |requirements|
      invariant extended == findings + Map(UnreferencedFinding, Filter(Unreferenced(refs), requirements[..i]))
    {
      UnreferencedSnoc(refs, requirements, i);
      if requirements[i].id !in referenced {
        extended := extended + [UnreferencedFinding(requirements[i])];
      }
    }
    assert requirements[..|requirements|] == requirements;
  }

  method CollectUniverseFindings(criteria: seq<Criterion>, requirements: seq<Requirement>)
    returns (findings: seq<Finding>)
    ensures findings == UniverseFindings(criteria, requirements)
  {
    var known := set r | r in requirements :: r.id;
    var referenced: set<string>;
    referenced, findings := CollectUnknown(criteria, known);
    findings := AppendUnreferenced(findings, References(criteria), requirements, referenced);
  }

  // ---- what the cross-check says ----

  function Subjects(fs: seq<Finding>): set<string> {
    set f | f in fs :: f.requirementId
  }

  /** The unknown ids after one more reference. */
  lemma UnknownSnoc(earlier: seq<Reference>, last: Reference, known: set<string>)
    ensures Referenced(earlier + [last]) - known
         == Referenced(earlier) - known + if last.requirement in known then {} else {last.requirement}
    ensures UnknownFindings(earlier + [last], known) == UnknownFindings(earlier, known)
         + if last.requirement in known || last.requirement in Referenced(earlier) - known then []
           else [UnknownFinding(last)]
  {
  }

  /** `fs` holds exactly one finding per id in `ids`. */
  ghost predicate OneEach(fs: seq<Finding>, ids: set<string>) {
    Subjects(fs) == ids && |fs| == |ids|
  }

  lemma OneMore(fs: seq<Finding>, ids: set<string>, f: Finding)
    requires OneEach(fs, ids) && f.requirementId !in ids
    ensures OneEach(fs + [f], ids + {f.requirementId})
  {
  }

  lemma UnknownCounts(earlier: seq<Reference>, last: Reference, known: set<string>)
    requires OneEach(UnknownFindings(earlier, known), Referenced(earlier) - known)
    ensures OneEach(UnknownFindings(earlier + [last], known), Referenced(earlier + [last]) - known)
  {
    UnknownSnoc(earlier, last, known);
    var ids, fs := Referenced(earlier) - known, UnknownFindings(earlier, known);
    if last.requirement !in known && last.requirement !in ids {
      OneMore(fs, ids, UnknownFinding(last));
    } else {
      assert UnknownFindings(earlier + [last], known) == fs && Referenced(earlier + [last]) - known == ids;
    }
  }

  /** Exactly one finding per requirement id the contract names and the policy lacks. */
  lemma {:induction false} UnknownFindingsMeaning(refs: seq<Reference>, known: set<string>)
    ensures OneEach(UnknownFindings(refs, known), Referenced(refs) - known)
  {
    if refs != [] {
      var earlier, last := refs[..|refs| - 1], refs[|refs| - 1];
      assert refs == earlier + [last];
      UnknownFindingsMeaning(earlier, known);
      UnknownCounts(earlier, last, known);
    }
  }

  /** Every such finding blocks and names an unknown reference. */
  lemma {:induction false} UnknownFindingsFrom(refs: seq<Reference>, known: set<string>)
    ensures forall f :: f in UnknownFindings(refs, known) ==>
      exists r :: r in refs && r.requirement !in known && f == UnknownFinding(r)
  {
    if refs != [] {
      var earlier, last := refs[..|refs| - 1], refs[|refs| - 1];
      UnknownFindingsFrom(earlier, known);
      forall f | f in UnknownFindings(refs, known)
        ensures exists r :: r in refs && r.requirement !in known && f == UnknownFinding(r)
      {
        if f in UnknownFindings(earlier, known) {
          var r :| r in earlier && r.requirement !in known && f == UnknownFinding(r);
          assert r in refs;
        } else {
          assert last in refs && f == UnknownFinding(last);
        }
      }
    }
  }

  /** The other findings are about exactly the requirements that no criterion references. */
  lemma UnreferencedMeaning(refs: seq<Reference>, requirements: seq<Requirement>)
    ensures forall f :: f in Map(UnreferencedFinding, Filter(Unreferenced(refs), requirements)) <==>
      exists r :: r in requirements && r.id !in Referenced(refs) && f == UnreferencedFinding(r)
  {
    MapMembers(UnreferencedFinding, Filter(Unreferenced(refs), requirements));
  }

  lemma UnknownBlocks(refs: seq<Reference>, known: set<string>)
    ensures SomeBlocking(UnknownFindings(refs, known)) <==> Referenced(refs) - known != {}
  {
    UnknownFindingsMeaning(refs, known);
    UnknownFindingsFrom(refs, known);
    var unknown := UnknownFindings(refs, known);
    if unknown != [] {
      assert unknown[0] in unknown;
    }
  }

  lemma UnreferencedNeverBlock(refs: seq<Reference>, requirements: seq<Requirement>)
    ensures !SomeBlocking(Map(UnreferencedFinding, Filter(Unreferenced(refs), requirements)))
  {
  }

  /** The cross-check blocks exactly when the contract names a requirement that the policy lacks. */
  lemma UniverseBlocks(criteria: seq<Criterion>, requirements: seq<Requirement>)
    ensures SomeBlocking(UniverseFindings(criteria, requirements))
       <==> !(Referenced(References(criteria)) <= KnownIds(requirements))
  {
    var refs, known := References(criteria), KnownIds(requirements);
    var rest := Map(UnreferencedFinding, Filter(Unreferenced(refs), requirements));
    UnknownBlocks(refs, known);
    UnreferencedNeverBlock(refs, requirements);
    BlockingAppend(UnknownFindings(refs, known), rest);
    if !(Referenced(refs) <= known) {
      var id :| id in Referenced(refs) && id !in known;
      assert id in Referenced(refs) - known;
    }
  }

  // ---- the cross-check on the documents' own fields ----

  lemma ReferencedMeaning(criteria: seq<Criterion>)
    ensures forall q :: q in Referenced(References(criteria)) <==> exists c :: c in criteria && q in c.requirements
  {
    var refs := References(criteria);
    FlatMapMembers(CriterionReferences, criteria);
    forall q ensures q in Referenced(refs) <==> exists c :: c in criteria && q in c.requirements {
      if q in Referenced(refs) {
        var x :| x in refs && x.requirement == q;
        var c :| c in criteria && x in CriterionReferences(c);
        MapMembers(ReferenceIn(c.id), c.requirements);
      }
      if c :| c in criteria && q in c.requirements {
        MapMembers(ReferenceIn(c.id), c.requirements);
        assert ReferenceIn(c.id)(q) in CriterionReferences(c);
      }
    }
  }

  /** Criterion `i` is the first to name the requirement. */
  predicate FirstNamed(criteria: seq<Criterion>, i: int, q: string) {
    0 <= i < |criteria| && q in criteria[i].requirements && forall k :: 0 <= k < i ==> q !in criteria[k].requirements
  }

  /** The finding reports that criterion `i`, first to do so, names a requirement the policy lacks. */
  predicate ReportsUnknown(f: Finding, criteria: seq<Criterion>, known: set<string>, i: int, q: string) {
    && FirstNamed(criteria, i, q) && q !in known
    && f.code == "CONTRACT_UNKNOWN_REQUIREMENT" && f.category == ContractCategory && f.severity == Error
    && f.requirementId == q && f.evidenceIds == [] && f.blocking
    && f.message == Message("references a requirement that policy does not define", [criteria[i].id, q])
  }

  /** One criterion's mention of `q` raises the finding. */
  predicate RaisedBy(f: Finding, refs: seq<Reference>, id: string, q: string, known: set<string>) {
    q !in known && q !in Referenced(refs) && f == UnknownFinding(Reference(id, q))
  }

  lemma UnknownMembersSnoc(earlier: seq<Reference>, last: Reference, known: set<string>, f: Finding)
    ensures f in UnknownFindings(earlier + [last], known) <==>
      f in UnknownFindings(earlier, known) || RaisedBy(f, earlier, last.criterion, last.requirement, known)
  {
    UnknownSnoc(earlier, last, known);
  }

  lemma CriterionSnoc(refs: seq<Reference>, id: string, qs: seq<string>, n: nat)
    requires n < |qs|
    ensures refs + Map(ReferenceIn(id), qs[..n + 1]) == refs + Map(ReferenceIn(id), qs[..n]) + [Reference(id, qs[n])]
  {
    MapSnoc(ReferenceIn(id), qs, n);
  }

  lemma ReferencedInCriterion(refs: seq<Reference>, id: string, qs: seq<string>, q: string)
    ensures q in Referenced(refs + Map(ReferenceIn(id), qs)) <==> q in Referenced(refs) || q in qs
  {
    var mentions := Map(ReferenceIn(id), qs);
    assert forall x :: x in refs + mentions <==> x in refs || x in mentions;
    MapMembers(ReferenceIn(id), qs);
    if q in qs {
      assert ReferenceIn(id)(q) in mentions;
    }
  }

  /** Some mention among `qs` raises the finding. */
  predicate RaisedAmong(f: Finding, refs: seq<Reference>, id: string, qs: seq<string>, known: set<string>) {
    exists q :: q in qs && RaisedBy(f, refs, id, q, known)
  }

  lemma RaisedSnoc(f: Finding, refs: seq<Reference>, id: string, qs: seq<string>, n: nat, known: set<string>)
    requires n < |qs|
    ensures RaisedAmong(f, refs, id, qs[..n + 1], known) <==>
      RaisedAmong(f, refs, id, qs[..n], known)
      || RaisedBy(f, refs + Map(ReferenceIn(id), qs[..n]), id, qs[n], known)
  {
    assert forall x :: x in qs[..n + 1] <==> x in qs[..n] || x == qs[n];
    ReferencedInCriterion(refs, id, qs[..n], qs[n]);
  }

  lemma NoneMentioned(refs: seq<Reference>, id: string, qs: seq<string>)
    ensures refs + Map(ReferenceIn(id), qs[..0]) == refs
  {
  }

  lemma MentionStep(refs: seq<Reference>, id: string, qs: seq<string>, n: nat, known: set<string>, f: Finding)
    requires n < |qs|
    requires f in UnknownFindings(refs + Map(ReferenceIn(id), qs[..n]), known) <==>
      f in UnknownFindings(refs, known) || RaisedAmong(f, refs, id, qs[..n], known)
    ensures f in UnknownFindings(refs + Map(ReferenceIn(id), qs[..n + 1]), known) <==>
      f in UnknownFindings(refs, known) || RaisedAmong(f, refs, id, qs[..n + 1], known)
  {
    CriterionSnoc(refs, id, qs, n);
    UnknownMembersSnoc(refs + Map(ReferenceIn(id), qs[..n]), Reference(id, qs[n]), known, f);
    RaisedSnoc(f, refs, id, qs, n, known);
  }

  lemma {:induction false} UnknownInCriterion(
    refs: seq<Reference>, id: string, qs: seq<string>, n: nat, known: set<string>, f: Finding)
    requires n <= |qs|
    ensures f in UnknownFindings(refs + Map(ReferenceIn(id), qs[..n]), known) <==>
      f in UnknownFindings(refs, known) || RaisedAmong(f, refs, id, qs[..n], known)
  {
    if n == 0 {
      NoneMentioned(refs, id, qs);
    } else {
      UnknownInCriterion(refs, id, qs, n - 1, known, f);
      MentionStep(refs, id, qs, n - 1, known, f);
    }
  }

  lemma NamedBefore(criteria: seq<Criterion>, n: nat, q: string)
    requires n <= |criteria|
    ensures q !in Referenced(References(criteria[..n])) <==> forall k :: 0 <= k < n ==> q !in criteria[k].requirements
  {
    ReferencedMeaning(criteria[..n]);
    assert forall k :: 0 <= k < n ==> criteria[k] in criteria[..n];
    if c :| c in criteria[..n] && q in c.requirements {
      var k :| 0 <= k < n && criteria[k] == c;
    }
  }

  lemma RaisedIsReported(criteria: seq<Criterion>, n: nat, known: set<string>, f: Finding, q: string)
    requires n < |criteria|
    ensures q in criteria[n].requirements && RaisedBy(f, References(criteria[..n]), criteria[n].id, q, known)
       <==> ReportsUnknown(f, criteria, known, n, q)
  {
    NamedBefore(criteria, n, q);
  }

  /** Some mention in criterion `n` is reported by the finding. */
  ghost predicate ReportedAt(f: Finding, criteria: seq<Criterion>, n: nat, known: set<string>) {
    exists q :: ReportsUnknown(f, criteria, known, n, q)
  }

  /** Some mention among the first `n` criteria is reported by the finding. */
  ghost predicate ReportedWithin(f: Finding, criteria: seq<Criterion>, n: nat, known: set<string>) {
    exists i, q :: i < n && ReportsUnknown(f, criteria, known, i, q)
  }

  lemma UnknownStep(criteria: seq<Criterion>, n: nat, known: set<string>, f: Finding)
    requires n < |criteria|
    ensures f in UnknownFindings(References(criteria[..n + 1]), known) <==>
      || f in UnknownFindings(References(criteria[..n]), known)
      || ReportedAt(f, criteria, n, known)
  {
    var c, refs := criteria[n], References(criteria[..n]);
    FlatMapSnoc(CriterionReferences, criteria, n);
    UnknownInCriterion(refs, c.id, c.requirements, |c.requirements|, known, f);
    assert c.requirements[..|c.requirements|] == c.requirements;
    forall q
      ensures q in c.requirements && RaisedBy(f, refs, c.id, q, known) <==> ReportsUnknown(f, criteria, known, n, q)
    {
      RaisedIsReported(criteria, n, known, f, q);
    }
  }

  lemma WithinSnoc(f: Finding, criteria: seq<Criterion>, n: nat, known: set<string>)
    ensures ReportedWithin(f, criteria, n + 1, known) <==>
      ReportedWithin(f, criteria, n, known) || ReportedAt(f, criteria, n, known)
  {
    if i, q :| i < n + 1 && ReportsUnknown(f, criteria, known, i, q) {
      assert i < n || i == n;
    }
  }

  lemma NoneWithin(f: Finding, criteria: seq<Criterion>, known: set<string>)
    ensures !ReportedWithin(f, criteria, 0, known) && f !in UnknownFindings(References(criteria[..0]), known)
  {
    assert References(criteria[..0]) == [];
  }

  lemma ReportedStep(criteria: seq<Criterion>, n: nat, known: set<string>, f: Finding)
    requires n < |criteria|
    requires f in UnknownFindings(References(criteria[..n]), known) <==> ReportedWithin(f, criteria, n, known)
    ensures f in UnknownFindings(References(criteria[..n + 1]), known) <==> ReportedWithin(f, criteria, n + 1, known)
  {
    UnknownStep(criteria, n, known, f);
    WithinSnoc(f, criteria, n, known);
  }

  lemma {:induction false} UnknownReported(criteria: seq<Criterion>, n: nat, known: set<string>, f: Finding)
    requires n <= |criteria|
    ensures f in UnknownFindings(References(criteria[..n]), known) <==> ReportedWithin(f, criteria, n, known)
  {
    if n == 0 {
      NoneWithin(f, criteria, known);
    } else {
      UnknownReported(criteria, n - 1, known, f);
      ReportedStep(criteria, n - 1, known, f);
    }
  }

  /** The finding reports a requirement that no criterion names. */
  predicate ReportsUnreferenced(f: Finding, criteria: seq<Criterion>, r: Requirement) {
    && (forall c :: c in criteria ==> r.id !in c.requirements)
    && f.code == "POLICY_REQUIREMENT_UNREFERENCED" && f.category == PolicyCategory && f.severity == Info
    && f.requirementId == r.id && f.evidenceIds == [] && !f.blocking
    && f.message == Message("is referenced by no acceptance criterion", [r.id])
  }

  /** The findings of the cross-check, field by field: which there are, and what each says. */
  lemma UniverseTable(criteria: seq<Criterion>, requirements: seq<Requirement>, f: Finding)
    ensures f in UniverseFindings(criteria, requirements) <==>
      || ReportedWithin(f, criteria, |criteria|, KnownIds(requirements))
      || exists r :: r in requirements && ReportsUnreferenced(f, criteria, r)
  {
    UnknownReported(criteria, |criteria|, KnownIds(requirements), f);
    assert criteria[..|criteria|] == criteria;
    UnreferencedMeaning(References(criteria), requirements);
    forall r: Requirement
      ensures r.id !in Referenced(References(criteria)) && f == UnreferencedFinding(r)
         <==> ReportsUnreferenced(f, criteria, r)
    {
      ReportedUnreferenced(criteria, r, f);
    }
  }

  lemma ReportedUnreferenced(criteria: seq<Criterion>, r: Requirement, f: Finding)
    ensures r.id !in Referenced(References(criteria)) && f == UnreferencedFinding(r)
       <==> ReportsUnreferenced(f, criteria, r)
  {
    ReferencedMeaning(criteria);
  }
}
