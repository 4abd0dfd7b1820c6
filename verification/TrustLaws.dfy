/** Exactly when a key resolves and an envelope verifies, and that order and tampering behave. */
module TrustLaws {
  import opened Pae
  import opened Seqs
  import opened TrustRoot

  lemma MatchesMembers(issuers: seq<Issuer>, keyId: string, at: int)
    ensures forall k :: k in Matches(issuers, keyId, at) <==>
      exists i :: i in issuers && InWindow(i, at) && k in i.keys && k.keyId == keyId
  {
    FlatMapMembers(MatchingKeys(keyId, at), issuers);
    forall i, k ensures k in MatchingKeys(keyId, at)(i) <==> InWindow(i, at) && k in i.keys && k.keyId == keyId {
    }
  }

  lemma SoundMeaning(issuers: seq<Issuer>, keyId: string, at: int, lib: Primitives)
    ensures AllParse(issuers) && AllUsable(Matches(issuers, keyId, at), lib) <==> Sound(issuers, keyId, at, lib)
  {
    MatchesMembers(issuers, keyId, at);
    if Sound(issuers, keyId, at, lib) {
      forall k | k in Matches(issuers, keyId, at) ensures KeyUsable(k, lib) {
        var x :| x in issuers && InWindow(x, at) && k in x.keys && k.keyId == keyId;
        var i :| 0 <= i < |issuers| && issuers[i] == x;
        var j :| 0 <= j < |x.keys| && x.keys[j] == k;
        assert Holds(issuers, i, j, keyId, at);
      }
    }
    if AllParse(issuers) && AllUsable(Matches(issuers, keyId, at), lib) {
      forall i | 0 <= i < |issuers| ensures WindowParses(issuers[i]) {
        assert issuers[i] in issuers;
      }
      forall i, j | Holds(issuers, i, j, keyId, at) ensures KeyUsable(issuers[i].keys[j], lib) {
        assert issuers[i] in issuers && issuers[i].keys[j] in issuers[i].keys;
      }
    }
  }

  /** A single match is one issuer's one key. */
  lemma OneMatch(issuers: seq<Issuer>, keyId: string, at: int)
    ensures |Matches(issuers, keyId, at)| == 1 ==> exists i, j :: OnlyAt(issuers, i, j, keyId, at)
    ensures forall i, j :: OnlyAt(issuers, i, j, keyId, at) ==> Matches(issuers, keyId, at) == [issuers[i].keys[j]]
  {
    var f := MatchingKeys(keyId, at);
    FlatMapOne(f, issuers);
    if |Matches(issuers, keyId, at)| == 1 {
      var i :| OnlySource(f, issuers, i);
      FilterOne(WithId(keyId), issuers[i].keys);
      var j :| OnlyWhere(WithId(keyId), issuers[i].keys, j);
      SourceIsOnly(issuers, i, j, keyId, at);
    }
    forall i, j | OnlyAt(issuers, i, j, keyId, at) ensures Matches(issuers, keyId, at) == [issuers[i].keys[j]] {
      OnlyIsSource(issuers, i, j, keyId, at);
      FilterOne(WithId(keyId), issuers[i].keys);
    }
  }

  lemma SourceIsOnly(issuers: seq<Issuer>, i: int, j: int, keyId: string, at: int)
    requires OnlySource(MatchingKeys(keyId, at), issuers, i) && OnlyWhere(WithId(keyId), issuers[i].keys, j)
    ensures OnlyAt(issuers, i, j, keyId, at)
  {
    forall i', j' | Holds(issuers, i', j', keyId, at) ensures i' == i && j' == j {
      assert issuers[i'].keys[j'] in issuers[i'].keys;
      assert issuers[i'].keys[j'] in MatchingKeys(keyId, at)(issuers[i']);
    }
  }

  lemma OnlyIsSource(issuers: seq<Issuer>, i: int, j: int, keyId: string, at: int)
    requires OnlyAt(issuers, i, j, keyId, at)
    ensures OnlySource(MatchingKeys(keyId, at), issuers, i) && OnlyWhere(WithId(keyId), issuers[i].keys, j)
  {
    var f := MatchingKeys(keyId, at);
    forall j' | 0 <= j' < |issuers[i].keys| && j' != j ensures !WithId(keyId)(issuers[i].keys[j']) {
      assert !Holds(issuers, i, j', keyId, at);
    }
    FilterOne(WithId(keyId), issuers[i].keys);
    forall i' | 0 <= i' < |issuers| && i' != i ensures f(issuers[i']) == [] {
      if f(issuers[i']) != [] {
        var k := f(issuers[i'])[0];
        assert k in f(issuers[i']);
        var j' :| 0 <= j' < |issuers[i'].keys| && issuers[i'].keys[j'] == k;
        assert Holds(issuers, i', j', keyId, at);
      }
    }
  }

  /**
   A key resolves exactly when every issuer's window parses, every in-window
   key with the id decodes to the right size, and exactly one issuer and key
   match; the result is that key.
   */
  lemma ResolveExact(issuers: seq<Issuer>, keyId: string, at: int, lib: Primitives, key: Bytes)
    ensures Resolve(issuers, keyId, at, lib) == Some(key) <==> (
      && Sound(issuers, keyId, at, lib)
      && exists i, j :: OnlyAt(issuers, i, j, keyId, at) && lib.decode(issuers[i].keys[j].publicKey) == Some(key))
  {
    SoundMeaning(issuers, keyId, at, lib);
    OneMatch(issuers, keyId, at);
    if Resolve(issuers, keyId, at, lib) == Some(key) {
      var i, j :| OnlyAt(issuers, i, j, keyId, at);
      assert Matches(issuers, keyId, at) == [issuers[i].keys[j]];
    }
  }

  // ---- order ----

  /** Issuers with the same window and the same keys, in any order. */
  ghost predicate SameIssuer(a: Issuer, b: Issuer) {
    a.from == b.from && a.until == b.until && Permuted(a.keys, b.keys)
  }

  /** The same root with issuers and keys listed in another order; `middle` has only the issuers moved. */
  ghost predicate Reordered(a: seq<Issuer>, middle: seq<Issuer>, b: seq<Issuer>) {
    && Permuted(a, middle) && |middle| == |b|
    && forall i :: 0 <= i < |b| ==> SameIssuer(middle[i], b[i])
  }

  lemma SingletonPermuted<T>(a: seq<T>, b: seq<T>)
    requires Permuted(a, b) && |a| == 1
    ensures a == b
  {
    PermutedMembers(a, b);
    assert a[0] in a && b[0] in b;
  }

  /** Neither the order of issuers nor the order of keys matters. */
  lemma OrderIrrelevant(a: seq<Issuer>, middle: seq<Issuer>, b: seq<Issuer>, keyId: string, at: int, lib: Primitives)
    requires Reordered(a, middle, b)
    ensures Resolve(a, keyId, at, lib) == Resolve(b, keyId, at, lib)
  {
    var f := MatchingKeys(keyId, at);
    PermutedFlatMap(f, a, middle);
    forall i | 0 <= i < |b|
      ensures Permuted(f(middle[i]), f(b[i])) && (WindowParses(middle[i]) <==> WindowParses(b[i]))
    {
      PermutedFilter(WithId(keyId), middle[i].keys, b[i].keys);
    }
    FlatMapPointwise(f, middle, b);
    PermutedMembers(a, middle);
    WindowsParse(middle, b);
    var (m, n) := (Matches(a, keyId, at), Matches(b, keyId, at));
    PermutedMembers(m, n);
    if |m| == 1 {
      SingletonPermuted(m, n);
    }
  }

  lemma WindowsParse(a: seq<Issuer>, b: seq<Issuer>)
    requires |a| == |b| && forall i :: 0 <= i < |a| ==> (WindowParses(a[i]) <==> WindowParses(b[i]))
    ensures AllParse(a) <==> AllParse(b)
  {
  }

  // ---- signing and verifying ----

  function SignEnvelope(e: Envelope, keyId: string, privateKey: Bytes, lib: Primitives): Option<Envelope> {
    match lib.decode(e.payload)
    case None => None
    case Some(payload) =>
      var signature := lib.sign(privateKey, Encoding(e.payloadType, payload));
      Some(e.(signatures := e.signatures + [Signature(keyId, lib.encode(signature))]))
  }

  /** One signature verifies under the key its id resolves to. */
  predicate SignatureOk(s: Signature, message: Bytes, issuers: seq<Issuer>, at: int, lib: Primitives) {
    && Resolve(issuers, s.keyId, at, lib).Some?
    && lib.decode(s.sig).Some?
    && lib.verify(Resolve(issuers, s.keyId, at, lib).value, message, lib.decode(s.sig).value)
  }

  predicate Verified(e: Envelope, issuers: seq<Issuer>, at: int, lib: Primitives) {
    && lib.decode(e.payload).Some?
    && |e.signatures| == 1
    && SignatureOk(e.signatures[0], Encoding(e.payloadType, lib.decode(e.payload).value), issuers, at, lib)
  }

  method VerifyEnvelope(e: Envelope, issuers: seq<Issuer>, at: int, lib: Primitives) returns (accepted: bool)
    ensures accepted <==> Verified(e, issuers, at, lib)
  {
    var payload := lib.decode(e.payload);
    if payload.None? {
      return false;
    }
    var verified := 0;
    for i := 0 to |e.signatures|
      invariant verified <= i
      invariant i == 1 ==> (verified == 1 <==>
        SignatureOk(e.signatures[0], Encoding(e.payloadType, payload.value), issuers, at, lib))
    {
      var key := ResolveKey(issuers, e.signatures[i].keyId, at, lib);
      if key.None? {
        continue;
      }
      var sig := lib.decode(e.signatures[i].sig);
      if sig.None? {
        continue;
      }
      var message := PAE(e.payloadType, payload.value);
      if lib.verify(key.value, message, sig.value) {
        verified := verified + 1;
      }
    }
    accepted := verified == 1 && |e.signatures| == 1;
  }

  /** The key at `(i, j)` verifies the signature of the payload. */
  predicate VerifiesAt(e: Envelope, payload: Bytes, issuers: seq<Issuer>, i: int, j: int, lib: Primitives)
    requires 0 <= i < |issuers| && 0 <= j < |issuers[i].keys| && |e.signatures| == 1
  {
    var (key, sig) := (lib.decode(issuers[i].keys[j].publicKey), lib.decode(e.signatures[0].sig));
    key.Some? && sig.Some? && lib.verify(key.value, Encoding(e.payloadType, payload), sig.value)
  }

  /**
   An envelope is accepted exactly when its payload decodes, it carries one
   signature, nothing in the root is refused on the way to its key, one issuer
   alone holds that key in its window, and the key verifies the signature over
   the encoding of type and payload.
   */
  lemma VerifyExact(e: Envelope, issuers: seq<Issuer>, at: int, lib: Primitives)
    ensures Verified(e, issuers, at, lib) <==> (
      && lib.decode(e.payload).Some? && |e.signatures| == 1
      && Sound(issuers, e.signatures[0].keyId, at, lib)
      && exists i, j :: OnlyAt(issuers, i, j, e.signatures[0].keyId, at)
           && VerifiesAt(e, lib.decode(e.payload).value, issuers, i, j, lib))
  {
    if lib.decode(e.payload).Some? && |e.signatures| == 1 {
      var (id, payload) := (e.signatures[0].keyId, lib.decode(e.payload).value);
      if Verified(e, issuers, at, lib) {
        var key := Resolve(issuers, id, at, lib).value;
        ResolveExact(issuers, id, at, lib, key);
        var i, j :| OnlyAt(issuers, i, j, id, at) && lib.decode(issuers[i].keys[j].publicKey) == Some(key);
        assert VerifiesAt(e, payload, issuers, i, j, lib);
      }
      if Sound(issuers, id, at, lib) {
        if i, j :| OnlyAt(issuers, i, j, id, at) && VerifiesAt(e, payload, issuers, i, j, lib) {
          var key := lib.decode(issuers[i].keys[j].publicKey).value;
          ResolveExact(issuers, id, at, lib, key);
        }
      }
    }
  }

  /** Signing adds one signature at the end and keeps everything else. */
  lemma SigningKeeps(e: Envelope, keyId: string, privateKey: Bytes, lib: Primitives)
    requires SignEnvelope(e, keyId, privateKey, lib).Some?
    ensures var (signed, n) := (SignEnvelope(e, keyId, privateKey, lib).value, |e.signatures|); (
      && signed.payloadType == e.payloadType && signed.payload == e.payload
      && |signed.signatures| == n + 1 && signed.signatures[..n] == e.signatures
      && signed.signatures[n].keyId == keyId)
  {
  }

  /** A freshly signed envelope verifies under the signer's resolved key exactly when it was unsigned before. */
  lemma SignedVerifies(e: Envelope, keyId: string, privateKey: Bytes, issuers: seq<Issuer>, at: int, lib: Primitives)
    requires Base64Law(lib) && SignatureLaw(lib) && lib.decode(e.payload).Some?
    requires Resolve(issuers, keyId, at, lib) == Some(lib.publicOf(privateKey))
    ensures SignEnvelope(e, keyId, privateKey, lib).Some?
    ensures Verified(SignEnvelope(e, keyId, privateKey, lib).value, issuers, at, lib) <==> e.signatures == []
  {
  }

  /** A new envelope, once signed, verifies under the signer's resolved key and still decodes to its payload. */
  lemma NewEnvelopeVerifies(payloadType: Bytes, payload: Bytes, keyId: string, privateKey: Bytes,
                            issuers: seq<Issuer>, at: int, lib: Primitives)
    requires Base64Law(lib) && SignatureLaw(lib)
    requires Resolve(issuers, keyId, at, lib) == Some(lib.publicOf(privateKey))
    ensures var signed := SignEnvelope(NewEnvelope(payloadType, payload, lib), keyId, privateKey, lib); (
      && signed.Some? && Verified(signed.value, issuers, at, lib)
      && signed.value.payloadType == payloadType && lib.decode(signed.value.payload) == Some(payload))
  {
    assert lib.decode(lib.encode(payload)) == Some(payload);
    SignedVerifies(NewEnvelope(payloadType, payload, lib), keyId, privateKey, issuers, at, lib);
  }

  /** Signing twice, with any keys, leaves an envelope that never verifies. */
  lemma DoublySignedRejected(e: Envelope, id1: string, key1: Bytes, id2: string, key2: Bytes,
                             issuers: seq<Issuer>, at: int, lib: Primitives)
    requires lib.decode(e.payload).Some?
    ensures SignEnvelope(e, id1, key1, lib).Some?
    ensures SignEnvelope(SignEnvelope(e, id1, key1, lib).value, id2, key2, lib).Some?
    ensures !Verified(SignEnvelope(SignEnvelope(e, id1, key1, lib).value, id2, key2, lib).value, issuers, at, lib)
  {
  }

  /**
   A signature moved to another envelope is accepted exactly when that envelope
   carries the same payload type and the same payload bytes: the signed text
   determines both.
   */
  lemma SignatureBindsContent(e: Envelope, keyId: string, privateKey: Bytes, other: Envelope,
                              issuers: seq<Issuer>, at: int, lib: Primitives)
    requires Base64Law(lib) && IdealSignature(lib)
    requires e.signatures == [] && SignEnvelope(e, keyId, privateKey, lib).Some?
    requires Resolve(issuers, keyId, at, lib) == Some(lib.publicOf(privateKey))
    requires other.signatures == SignEnvelope(e, keyId, privateKey, lib).value.signatures
    ensures Verified(other, issuers, at, lib) <==>
      other.payloadType == e.payloadType && lib.decode(other.payload) == lib.decode(e.payload)
  {
    var payload := lib.decode(e.payload).value;
    var message := Encoding(e.payloadType, payload);
    assert other.signatures[0] == Signature(keyId, lib.encode(lib.sign(privateKey, message)));
    assert lib.decode(other.signatures[0].sig) == Some(lib.sign(privateKey, message));
    if Verified(other, issuers, at, lib) {
      Injective(e.payloadType, payload, other.payloadType, lib.decode(other.payload).value);
    }
  }
}
