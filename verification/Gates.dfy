/**
 The gate documents of a run, the contract and the policy, as their loaders
 read them: from the workspace, or from the subject's base revision. Decoding a
 document and hashing its canonical form are inputs.
 */
module Gates {
  import opened Domain
  import opened Evaluation
  import opened Inputs
  import opened Receipts
  import opened Seqs
  import opened Text
  import L = Loaders

  const CONTRACT_PATH := ".assurectl/contract.json"
  const POLICY_PATH := ".assurectl/policy.json"

  /** A digest as the program computes one. */
  type Sha256 = d: Digest | DigestOk(d) witness Digest(SHA256, seq(64, _ => '0'))

  datatype ContractDocument = ContractDocument(schemaVersion: string, workUnit: WorkUnit, criteria: seq<Criterion>)

  datatype PolicyDocument = PolicyDocument(schemaVersion: string, requirements: seq<Requirement>)

  /** A file: its document, if it can be read and decodes, and the digest of the document's canonical form. */
  datatype GateFile<T> = GateFile(document: Option<T>, digest: Sha256)

  datatype GateFiles = GateFiles(contract: GateFile<ContractDocument>, policy: GateFile<PolicyDocument>)

  /** Where the gate documents are read. */
  datatype Origin = Workspace | Base(revision: string)

  // ---- what the loaders demand ----

  predicate KnownKind(kind: string) {
    kind in {"pull_request", "commit", "release_candidate", "api_migration", "sdk_migration",
             "framework_upgrade", "dependency_upgrade", "security_remediation"}
  }

  predicate WorkUnitOk(w: WorkUnit) {
    L.Bounded(w.id, 256) && KnownKind(w.kind) && L.Bounded(w.objective, 4096)
  }

  predicate CriterionOk(c: Criterion) {
    && CanonicalIdentifier(c.id) && L.Bounded(c.statement, 4096)
    && c.requirements != [] && (forall r :: r in c.requirements ==> CanonicalIdentifier(r))
    && Distinct(c.requirements)
  }

  predicate UniqueCriteria(criteria: seq<Criterion>) {
    forall i, j :: 0 <= i < j < |criteria| ==> criteria[i].id != criteria[j].id
  }

  predicate ContractDocumentOk(d: ContractDocument) {
    && d.schemaVersion == CONTRACT_SCHEMA && WorkUnitOk(d.workUnit)
    && d.criteria != [] && (forall c :: c in d.criteria ==> CriterionOk(c)) && UniqueCriteria(d.criteria)
  }

  predicate PolicyRequirementOk(r: Requirement) {
    && L.Bounded(r.evidenceType, 128)
    && r.allowedProducers != [] && (forall p :: p in r.allowedProducers ==> L.Bounded(p, 128))
    && Distinct(r.allowedProducers)
    && (r.maxAgeSeconds.Some? ==> 0 <= r.maxAgeSeconds.value)
  }

  predicate PolicyDocumentOk(d: PolicyDocument) {
    && d.schemaVersion == POLICY_SCHEMA
    && d.requirements != [] && RequirementIdsOk(d.requirements)
    && (forall r :: r in d.requirements ==> PolicyRequirementOk(r))
  }

  // ---- the checks as the loaders make them ----

  /** Every item meets the check, and none occurs twice. */
  method CheckDistinct(items: seq<string>, ok: string -> bool) returns (all: bool)
    ensures all <==> (forall x :: x in items ==> ok(x)) && Distinct(items)
  {
    var seen: set<string> := {};
    for i := 0 to |items|
      invariant forall k :: 0 <= k < i ==> ok(items[k])
      invariant Distinct(items[..i])
      invariant forall x :: x in seen <==> x in items[..i]
    {
      if !ok(items[i]) || items[i] in seen {
        assert items[i] in items;
        return false;
      }
      seen := seen + {items[i]};
      assert items[..i + 1] == items[..i] + [items[i]];
    }
    assert items[..|items|] == items;
    all := true;
  }

  method ValidateCriterion(c: Criterion) returns (ok: bool)
    ensures ok <==> CriterionOk(c)
  {
    if !CanonicalIdentifier(c.id) || !L.Bounded(c.statement, 4096) || c.requirements == [] {
      return false;
    }
    ok := CheckDistinct(c.requirements, CanonicalIdentifier);
  }

  method ValidateContract(d: ContractDocument) returns (ok: bool)
    ensures ok <==> ContractDocumentOk(d)
  {
    if d.schemaVersion != CONTRACT_SCHEMA || !WorkUnitOk(d.workUnit) || d.criteria == [] {
      return false;
    }
    var seen: set<string> := {};
    for i := 0 to |d.criteria|
      invariant forall k :: 0 <= k < i ==> CriterionOk(d.criteria[k])
      invariant UniqueCriteria(d.criteria[..i])
      invariant forall id :: id in seen <==> exists k :: 0 <= k < i && d.criteria[k].id == id
    {
      var valid := ValidateCriterion(d.criteria[i]);
      if !valid || d.criteria[i].id in seen {
        assert d.criteria[i] in d.criteria;
        return false;
      }
      seen := seen + {d.criteria[i].id};
    }
    assert d.criteria[..|d.criteria|] == d.criteria;
    ok := true;
  }

  predicate ProducerOk(p: string) { L.Bounded(p, 128) }

  method ValidateRequirement(r: Requirement) returns (ok: bool)
    ensures ok <==> PolicyRequirementOk(r)
  {
    if !L.Bounded(r.evidenceType, 128) || r.allowedProducers == []
       || (r.maxAgeSeconds.Some? && r.maxAgeSeconds.value < 0) {
      return false;
    }
    ok := CheckDistinct(r.allowedProducers, ProducerOk);
  }

  method ValidatePolicy(d: PolicyDocument) returns (ok: bool)
    ensures ok <==> PolicyDocumentOk(d)
  {
    if d.schemaVersion != POLICY_SCHEMA || d.requirements == [] {
      return false;
    }
    var seen: set<string> := {};
    for i := 0 to |d.requirements|
      invariant forall k :: 0 <= k < i ==> PolicyRequirementOk(d.requirements[k])
      invariant RequirementIdsOk(d.requirements[..i])
      invariant forall id :: id in seen <==> exists k :: 0 <= k < i && d.requirements[k].id == id
    {
      var r := d.requirements[i];
      assert r in d.requirements && d.requirements[..i + 1] == d.requirements[..i] + [r];
      if !CanonicalIdentifier(r.id) || r.id in seen {
        return false;
      }
      seen := seen + {r.id};
      var valid := ValidateRequirement(r);
      if !valid {
        return false;
      }
    }
    assert d.requirements[..|d.requirements|] == d.requirements;
    ok := true;
  }

  // ---- loading ----

  /** A base revision must be a resolved object id. */
  predicate Readable(origin: Origin) { origin.Base? ==> ObjectId(origin.revision) }

  function SourceOf(origin: Origin, path: string): string {
    match origin
    case Workspace => "workspace:" + path
    case Base(revision) => "base:" + revision + ":" + path
  }

  function TrustOf(origin: Origin): Trust { if origin.Base? then Trusted else Untrusted }

  function BasisOf(origin: Origin): Basis { if origin.Base? then TrustedBase else AdvisoryWorkspace }

  function ContractAt(file: GateFile<ContractDocument>, origin: Origin): Option<Contract> {
    if Readable(origin) && file.document.Some? && ContractDocumentOk(file.document.value) then
      var d := file.document.value;
      Some(Contract(d.schemaVersion, d.workUnit, d.criteria, SourceOf(origin, CONTRACT_PATH), file.digest,
                    TrustOf(origin)))
    else None
  }

  function PolicyAt(file: GateFile<PolicyDocument>, origin: Origin): Option<Policy> {
    if Readable(origin) && file.document.Some? && PolicyDocumentOk(file.document.value) then
      var d := file.document.value;
      Some(Policy(d.schemaVersion, d.requirements, SourceOf(origin, POLICY_PATH), file.digest,
                  TrustOf(origin), BasisOf(origin)))
    else None
  }

  method LoadContract(file: GateFile<ContractDocument>, origin: Origin) returns (loaded: Option<Contract>)
    ensures loaded == ContractAt(file, origin)
  {
    if !Readable(origin) || file.document.None? {
      return None;
    }
    var d := file.document.value;
    var ok := ValidateContract(d);
    if !ok {
      return None;
    }
    loaded := Some(Contract(d.schemaVersion, d.workUnit, d.criteria, SourceOf(origin, CONTRACT_PATH),
                            file.digest, TrustOf(origin)));
  }

  method LoadPolicy(file: GateFile<PolicyDocument>, origin: Origin) returns (loaded: Option<Policy>)
    ensures loaded == PolicyAt(file, origin)
  {
    if !Readable(origin) || file.document.None? {
      return None;
    }
    var d := file.document.value;
    var ok := ValidatePolicy(d);
    if !ok {
      return None;
    }
    loaded := Some(Policy(d.schemaVersion, d.requirements, SourceOf(origin, POLICY_PATH), file.digest,
                          TrustOf(origin), BasisOf(origin)));
  }

  // ---- what loading guarantees ----

  /** A loaded contract passes every check the evaluator makes of one. */
  lemma LoadedContractOk(file: GateFile<ContractDocument>, origin: Origin)
    requires ContractAt(file, origin).Some?
    ensures ContractOk(ContractAt(file, origin).value) && CriteriaOk(ContractAt(file, origin).value.criteria)
  {
    forall c | c in file.document.value.criteria
      ensures forall reference :: reference in c.requirements ==> CanonicalIdentifier(reference)
    {
      assert CriterionOk(c);
    }
  }

  /** A loaded policy passes every check the evaluator makes of one, and defines a requirement. */
  lemma LoadedPolicyOk(file: GateFile<PolicyDocument>, origin: Origin)
    requires PolicyAt(file, origin).Some?
    ensures var p := PolicyAt(file, origin).value;
      PolicyOk(p) && RequirementIdsOk(p.requirements) && p.requirements != []
  {
  }

  lemma BaseSourceNames(revision: string, path: string)
    requires ObjectId(revision)
    ensures SourceNames(SourceOf(Base(revision), path), ":" + path)
  {
    var source := SourceOf(Base(revision), path);
    assert source == "base:" + revision + (":" + path);
    assert source[|"base:"|..|source| - |":" + path|] == revision;
    assert source[|source| - |":" + path|..] == ":" + path;
  }

  lemma BaseContractRecognized(revision: string)
    requires ObjectId(revision)
    ensures IsBaseSource(SourceOf(Base(revision), CONTRACT_PATH))
  {
    BaseSourceNames(revision, CONTRACT_PATH);
    assert ":" + CONTRACT_PATH == ":.assurectl/contract.json";
  }

  lemma BasePolicyRecognized(revision: string)
    requires ObjectId(revision)
    ensures IsBaseSource(SourceOf(Base(revision), POLICY_PATH))
  {
    BaseSourceNames(revision, POLICY_PATH);
    assert ":" + POLICY_PATH == ":.assurectl/policy.json";
  }

  /**
   With gate documents loaded from one place, a claim to a tier is refused only
   over a CI context, except for the authoritative tier, which the base alone
   supports.
   */
  lemma ProvenanceExactly(b: BuildInput, gates: GateFiles, origin: Origin)
    requires ContractAt(gates.contract, origin) == Some(b.contract) && PolicyAt(gates.policy, origin) == Some(b.policy)
    ensures ProvenanceOk(b) <==>
      match b.authority
      case Advisory => !b.carriesCi
      case CiAsserted => b.carriesCi
      case Authoritative => origin.Base?
      case OtherTier(_) => false
  {
    if origin.Base? {
      BaseContractRecognized(origin.revision);
      BasePolicyRecognized(origin.revision);
    }
  }
}
