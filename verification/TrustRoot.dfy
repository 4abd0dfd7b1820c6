/** Signing envelopes and verifying them against a trusted root. */
module TrustRoot {
  import opened Pae
  import opened Seqs

  const PUBLIC_KEY_SIZE := 32

  /** Base64 and Ed25519, as the functions they are; nothing is assumed of them here. */
  datatype Primitives = Primitives(
    encode: Bytes -> string,
    decode: string -> Option<Bytes>,
    sign: (Bytes, Bytes) -> Bytes,
    verify: (Bytes, Bytes, Bytes) -> bool,
    publicOf: Bytes -> Bytes)

  /** Decoding undoes encoding (section 4 of RFC 4648). */
  ghost predicate Base64Law(lib: Primitives) {
    forall b :: lib.decode(lib.encode(b)) == Some(b)
  }

  /** A signature verifies under the signer's public key. */
  ghost predicate SignatureLaw(lib: Primitives) {
    forall k, m :: lib.verify(lib.publicOf(k), m, lib.sign(k, m))
  }

  /** An ideal signature verifies for no other message. */
  ghost predicate IdealSignature(lib: Primitives) {
    SignatureLaw(lib) && forall k, m, m' :: lib.verify(lib.publicOf(k), m', lib.sign(k, m)) ==> m == m'
  }

  datatype Signature = Signature(keyId: string, sig: string)

  datatype Envelope = Envelope(payloadType: Bytes, payload: string, signatures: seq<Signature>)

  function NewEnvelope(payloadType: Bytes, payload: Bytes, lib: Primitives): Envelope {
    Envelope(payloadType, lib.encode(payload), [])
  }

  datatype TrustedKey = TrustedKey(keyId: string, publicKey: string)

  /** An issuer's window bounds are the instants they parse to, if they parse. */
  datatype Issuer = Issuer(id: string, keys: seq<TrustedKey>, from: Option<int>, until: Option<int>)

  // ---- resolving a key ----

  predicate InWindow(i: Issuer, at: int) {
    i.from.Some? && i.until.Some? && i.from.value <= at <= i.until.value
  }

  predicate WindowParses(i: Issuer) { i.from.Some? && i.until.Some? }

  predicate KeyUsable(k: TrustedKey, lib: Primitives) {
    lib.decode(k.publicKey).Some? && |lib.decode(k.publicKey).value| == PUBLIC_KEY_SIZE
  }

  /** Issuer `i` holds, from its first instant to its last, a key with the id at position `j`. */
  predicate Holds(issuers: seq<Issuer>, i: int, j: int, keyId: string, at: int) {
    && 0 <= i < |issuers| && 0 <= j < |issuers[i].keys|
    && issuers[i].from.Some? && issuers[i].from.value <= at
    && issuers[i].until.Some? && at <= issuers[i].until.value
    && issuers[i].keys[j].keyId == keyId
  }

  /** Every window parses, and every key on the way decodes to 32 bytes. */
  ghost predicate Sound(issuers: seq<Issuer>, keyId: string, at: int, lib: Primitives) {
    && (forall i :: 0 <= i < |issuers| ==> issuers[i].from.Some? && issuers[i].until.Some?)
    && forall i, j :: Holds(issuers, i, j, keyId, at) ==>
         var raw := lib.decode(issuers[i].keys[j].publicKey); raw.Some? && |raw.value| == 32
  }

  /** Exactly one issuer and key match, at `(i, j)`. */
  ghost predicate OnlyAt(issuers: seq<Issuer>, i: int, j: int, keyId: string, at: int) {
    Holds(issuers, i, j, keyId, at) && forall i', j' :: Holds(issuers, i', j', keyId, at) ==> i' == i && j' == j
  }

  function WithId(keyId: string): TrustedKey -> bool {
    (k: TrustedKey) => k.keyId == keyId
  }

  function MatchingKeys(keyId: string, at: int): Issuer -> seq<TrustedKey> {
    (i: Issuer) => if InWindow(i, at) then Filter(WithId(keyId), i.keys) else []
  }

  /** Every in-window key with the id, in order. */
  function Matches(issuers: seq<Issuer>, keyId: string, at: int): seq<TrustedKey> {
    FlatMap(MatchingKeys(keyId, at), issuers)
  }

  predicate AllUsable(keys: seq<TrustedKey>, lib: Primitives) {
    forall k :: k in keys ==> KeyUsable(k, lib)
  }

  predicate AllParse(issuers: seq<Issuer>) {
    forall i :: i in issuers ==> WindowParses(i)
  }

  function Resolve(issuers: seq<Issuer>, keyId: string, at: int, lib: Primitives): Option<Bytes> {
    var matches := Matches(issuers, keyId, at);
    if AllParse(issuers) && AllUsable(matches, lib) && |matches| == 1 then lib.decode(matches[0].publicKey) else None
  }

  /** What the scan knows after the given matches: their number and the last one decoded. */
  ghost predicate Tracks(count: nat, resolved: Bytes, found: seq<TrustedKey>, lib: Primitives) {
    && AllUsable(found, lib) && count == |found|
    && (found != [] ==> Some(resolved) == lib.decode(found[|found| - 1].publicKey))
  }

  lemma TracksSnoc(count: nat, resolved: Bytes, found: seq<TrustedKey>, k: TrustedKey, lib: Primitives)
    requires Tracks(count, resolved, found, lib) && KeyUsable(k, lib)
    ensures Tracks(count + 1, lib.decode(k.publicKey).value, found + [k], lib)
  {
  }

  /** Scans one in-window issuer's keys; `refused` is the key that cannot be used. */
  method ScanKeys(keys: seq<TrustedKey>, keyId: string, lib: Primitives,
                  ghost found: seq<TrustedKey>, count: nat, resolved: Bytes)
    returns (count': nat, resolved': Bytes, refused: Option<TrustedKey>)
    requires Tracks(count, resolved, found, lib)
    ensures refused.Some? ==> refused.value in Filter(WithId(keyId), keys) && !KeyUsable(refused.value, lib)
    ensures refused.None? ==> Tracks(count', resolved', found + Filter(WithId(keyId), keys), lib)
  {
    count', resolved', refused := count, resolved, None;
    ghost var now := found;
    for j := 0 to |keys|
      invariant now == found + Filter(WithId(keyId), keys[..j])
      invariant Tracks(count', resolved', now, lib)
    {
      var k := keys[j];
      WithIdSnoc(found, keys, j, keyId);
      if k.keyId == keyId {
        var raw := lib.decode(k.publicKey);
        if raw.None? || |raw.value| != PUBLIC_KEY_SIZE {
          assert k in keys;
          return count', resolved', Some(k);
        }
        TracksSnoc(count', resolved', now, k, lib);
        now := now + [k];
        count', resolved' := count' + 1, raw.value;
      }
    }
    assert keys[..|keys|] == keys;
  }

  lemma WithIdSnoc(found: seq<TrustedKey>, keys: seq<TrustedKey>, j: nat, keyId: string)
    requires j < |keys|
    ensures found + Filter(WithId(keyId), keys[..j + 1])
         == if keys[j].keyId == keyId then found + Filter(WithId(keyId), keys[..j]) + [keys[j]]
            else found + Filter(WithId(keyId), keys[..j])
  {
    FilterSnoc(WithId(keyId), keys, j);
  }

  method ResolveKey(issuers: seq<Issuer>, keyId: string, at: int, lib: Primitives) returns (key: Option<Bytes>)
    ensures key == Resolve(issuers, keyId, at, lib)
  {
    var count: nat, resolved: Bytes := 0, [];
    ghost var found: seq<TrustedKey> := [];
    for i := 0 to |issuers|
      invariant AllParse(issuers[..i])
      invariant found == Matches(issuers[..i], keyId, at)
      invariant Tracks(count, resolved, found, lib)
    {
      var issuer := issuers[i];
      assert issuer in issuers;
      FlatMapSnoc(MatchingKeys(keyId, at), issuers, i);
      assert issuers[..i + 1] == issuers[..i] + [issuer];
      if issuer.from.None? || issuer.until.None? {
        return None;
      }
      if !(at < issuer.from.value || at > issuer.until.value) {
        var refused;
        count, resolved, refused := ScanKeys(issuer.keys, keyId, lib, found, count, resolved);
        if refused.Some? {
          RefusedMatch(issuers, i, refused.value, keyId, at, lib);
          return None;
        }
        found := found + Filter(WithId(keyId), issuer.keys);
      }
    }
    assert issuers[..|issuers|] == issuers;
    key := if count == 1 then Some(resolved) else None;
  }

  lemma RefusedMatch(issuers: seq<Issuer>, i: nat, k: TrustedKey, keyId: string, at: int, lib: Primitives)
    requires i < |issuers| && k in MatchingKeys(keyId, at)(issuers[i]) && !KeyUsable(k, lib)
    ensures Resolve(issuers, keyId, at, lib).None?
  {
    FlatMapMembers(MatchingKeys(keyId, at), issuers);
    assert issuers[i] in issuers;
  }
}
