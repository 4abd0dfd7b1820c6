/**
 The evidence and waiver loaders, from decoded documents on: what they refuse,
 and what the evaluator may therefore rely on. File access, JSON decoding,
 artifact hashing and digests are inputs.
 */
module Loaders {
  import opened Domain
  import opened Evaluation
  import opened Identity
  import opened Inputs
  import opened Seqs
  import opened Text

  // ---- evidence ----

  const ENVELOPE_SCHEMA := "assurectl/evidence-envelope/v0"

  /** A decoded envelope document; timestamps are absent when their text does not parse. */
  datatype Envelope = Envelope(
    schemaVersion: string, id: string, evidenceType: string,
    subjectRepository: string, subjectRevision: string,
    producerType: string, producerIdentity: string, commandId: string,
    startedAt: Option<int>, finishedAt: Option<int>,
    outcome: Outcome,
    artifactUri: string, artifactDigest: Digest, mediaType: string)

  /**
   One file of the evidence directory: its envelope if it decodes, whether the
   artifact URI is portable, whether the artifact's bytes hash to the digest,
   and the digest of the envelope's canonical form.
   */
  datatype EvidenceFile = EvidenceFile(
    envelope: Option<Envelope>,
    portable: bool,
    artifactMatches: bool,
    digest: Digest)

  predicate Bounded(s: string, max: nat) { 1 <= |s| <= max }

  predicate EnvelopeOk(e: Envelope) {
    && e.schemaVersion == ENVELOPE_SCHEMA
    && CanonicalIdentifier(e.id)
    && Bounded(e.evidenceType, 128)
    && Bounded(e.subjectRepository, 1024) && ObjectId(e.subjectRevision)
    && Bounded(e.producerType, 128) && Bounded(e.producerIdentity, 1024)
    && Bounded(e.commandId, 256)
    && e.outcome.Known()
    && Bounded(e.artifactUri, 2048) && DigestOk(e.artifactDigest) && Bounded(e.mediaType, 256)
    && e.startedAt.Some? && e.finishedAt.Some? && e.startedAt.value <= e.finishedAt.value
  }

  /** The file holds a valid envelope with a portable artifact URI. */
  predicate Decodes(f: EvidenceFile) {
    f.envelope.Some? && EnvelopeOk(f.envelope.value) && f.portable
  }

  predicate BindsTo(e: Envelope, subject: Subject) {
    Canonicalize(e.subjectRepository) == Some(subject.repositoryUri) && ObjectId(e.subjectRevision)
  }

  /** The file can become evidence for the subject. */
  predicate Loads(f: EvidenceFile, subject: Subject) {
    Decodes(f) && BindsTo(f.envelope.value, subject) && f.artifactMatches
  }

  function ToEvidence(subject: Subject): EvidenceFile --> Evidence {
    (f: EvidenceFile) requires Decodes(f) =>
      var e := f.envelope.value;
      Evidence(e.id, e.evidenceType, e.producerType, e.outcome, e.finishedAt.value,
               if e.subjectRevision == subject.headRevision then Exact else OtherRevision, f.digest)
  }

  /** What evidence takes from its file: the finish of the invocation is the instant its age is measured from. */
  predicate LoadedAs(e: Evidence, f: EvidenceFile, subject: Subject) {
    && f.envelope.Some?
    && var x := f.envelope.value;
       && e.id == x.id && e.evidenceType == x.evidenceType && e.producerType == x.producerType
       && e.outcome == x.outcome && x.finishedAt == Some(e.finishedAt)
       && (e.binding == Exact <==> x.subjectRevision == subject.headRevision)
       && e.digest == f.digest
  }

  /** `evidence` is the files, in order, as evidence for the subject. */
  predicate LoadedFrom(evidence: seq<Evidence>, files: seq<EvidenceFile>, subject: Subject) {
    && |evidence| == |files|
    && forall i :: 0 <= i < |files| ==> Decodes(files[i]) && LoadedAs(evidence[i], files[i], subject)
  }

  lemma LoadedAsFile(f: EvidenceFile, subject: Subject)
    requires Decodes(f)
    ensures LoadedAs(ToEvidence(subject)(f), f, subject)
  {
  }

  predicate AllDecode(files: seq<EvidenceFile>) {
    forall i :: 0 <= i < |files| ==> Decodes(files[i])
  }

  /** No two files share an envelope id or an artifact URI. */
  predicate NoneTwice(files: seq<EvidenceFile>)
    requires AllDecode(files)
  {
    forall i, j :: 0 <= i < j < |files| ==>
      && files[i].envelope.value.id != files[j].envelope.value.id
      && files[i].envelope.value.artifactUri != files[j].envelope.value.artifactUri
  }

  /** The load succeeds as a whole or not at all. */
  predicate EvidenceLoads(files: seq<EvidenceFile>, subject: Subject) {
    && ResolvedSubject(subject)
    && AllDecode(files) && NoneTwice(files)
    && (forall f :: f in files ==> Loads(f, subject))
  }

  /** First pass: every file decodes, and no id or artifact URI occurs twice. */
  method DecodeFiles(files: seq<EvidenceFile>) returns (ok: bool)
    ensures ok <==> AllDecode(files) && NoneTwice(files)
  {
    var seenIds, seenUris: set<string> := {}, {};
    for i := 0 to |files|
      invariant AllDecode(files[..i])
      invariant NoneTwice(files[..i])
      invariant seenIds == set f | f in files[..i] :: f.envelope.value.id
      invariant seenUris == set f | f in files[..i] :: f.envelope.value.artifactUri
    {
      var f := files[i];
      assert f in files;
      assert files[..i + 1] == files[..i] + [f];
      if f.envelope.None? || !EnvelopeOk(f.envelope.value) {
        return false;
      }
      if f.envelope.value.id in seenIds {
        return false;
      }
      seenIds := seenIds + {f.envelope.value.id};
      if !f.portable {
        return false;
      }
      if f.envelope.value.artifactUri in seenUris {
        return false;
      }
      seenUris := seenUris + {f.envelope.value.artifactUri};
    }
    assert files[..|files|] == files;
    ok := true;
  }

  /** Second pass: every envelope binds to the subject and every artifact matches. */
  method BindFiles(files: seq<EvidenceFile>, subject: Subject) returns (loaded: Option<seq<Evidence>>)
    requires AllDecode(files)
    ensures loaded.Some? <==> forall f :: f in files ==> Loads(f, subject)
    ensures loaded.Some? ==> LoadedFrom(loaded.value, files, subject)
  {
    var evidence: seq<Evidence> := [];
    for i := 0 to |files|
      invariant forall f :: f in files[..i] ==> Loads(f, subject)
      invariant LoadedFrom(evidence, files[..i], subject)
    {
      var f := files[i];
      assert f in files;
      assert files[..i + 1] == files[..i] + [f];
      if Canonicalize(f.envelope.value.subjectRepository) != Some(subject.repositoryUri) || !f.artifactMatches {
        return None;
      }
      evidence := evidence + [ToEvidence(subject)(f)];
    }
    assert files[..|files|] == files;
    loaded := Some(evidence);
  }

  method LoadEvidence(files: seq<EvidenceFile>, subject: Subject) returns (loaded: Option<seq<Evidence>>)
    ensures loaded.Some? <==> EvidenceLoads(files, subject)
    ensures loaded.Some? ==> LoadedFrom(loaded.value, files, subject)
  {
    if !ResolvedSubject(subject) {
      return None;
    }
    var decoded := DecodeFiles(files);
    if !decoded {
      return None;
    }
    loaded := BindFiles(files, subject);
  }

  // ---- waivers ----

  const WAIVERS_SCHEMA := "assurectl/waivers/v0"

  /** The waiver document: absent, unreadable, or its decoded contents. */
  datatype WaiversFile = Missing | Unreadable | WaiversFile(schemaVersion: string, records: seq<Waiver>)

  /** `strings.TrimSpace(s) != ""` within a length. */
  predicate NonBlank(s: string, max: nat) { !Blank(s) && |s| <= max }

  predicate RecordOk(w: Waiver) {
    && CanonicalIdentifier(w.id)
    && w.targetKind == REQUIREMENT_KIND && CanonicalIdentifier(w.targetId)
    && !Blank(w.scopeRepository) && CanonicalIdentifier(w.scopeWorkUnit)
    && (w.scopeHead == "" || ObjectId(w.scopeHead))
    && NonBlank(w.reason, 1024) && NonBlank(w.acceptedRisk, 1024)
    && !Blank(w.approverIdentity) && !Blank(w.approverAuthority)
    && w.issuedAt.instant.Some? && w.expiresAt.instant.Some? && w.issuedAt.instant.value <= w.expiresAt.instant.value
    && (w.status.WaiverValid? || w.status.WaiverInvalid?)
    && DigestOk(w.digest)
  }

  /** The record's digest is that of its other fields; `digestOf` never reads the digest field. */
  function Undigested(w: Waiver): Waiver { w.(digest := Digest("", "")) }

  predicate RecordsLoad(records: seq<Waiver>, digestOf: Waiver -> Digest) {
    && (forall w :: w in records ==> RecordOk(w) && w.digest == digestOf(Undigested(w)))
    && forall i, j :: 0 <= i < j < |records| ==> records[i].id != records[j].id
  }

  method LoadWaivers(file: WaiversFile, digestOf: Waiver -> Digest) returns (loaded: Option<seq<Waiver>>)
    ensures loaded == match file
                      case Missing => Some([])
                      case Unreadable => None
                      case WaiversFile(version, records) =>
                        if version == WAIVERS_SCHEMA && RecordsLoad(records, digestOf) then Some(records) else None
  {
    match file {
      case Missing => return Some([]);
      case Unreadable => return None;
      case WaiversFile(version, records) =>
        if version != WAIVERS_SCHEMA {
          return None;
        }
        var kept: seq<Waiver> := [];
        var seen: set<string> := {};
        for i := 0 to |records|
          invariant kept == records[..i]
          invariant RecordsLoad(records[..i], digestOf)
          invariant seen == set w | w in records[..i] :: w.id
        {
          var w := records[i];
          assert w in records;
          assert records[..i + 1] == records[..i] + [w];
          if !RecordOk(w) {
            return None;
          }
          if w.id in seen {
            return None;
          }
          seen := seen + {w.id};
          if w.digest != digestOf(Undigested(w)) {
            return None;
          }
          kept := kept + [w];
        }
        assert records[..|records|] == records;
        loaded := Some(kept);
    }
  }
}
