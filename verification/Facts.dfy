/** The fact each envelope contributes to a requirement, and the age arithmetic behind it. */
module Facts {
  import opened Inputs

  datatype Fact = Candidate | StaleRevision | StaleFuture | StaleAge | UntrustedProducer

  const MAX_DURATION := 0x7fff_ffff_ffff_ffff
  const MIN_DURATION := -0x8000_0000_0000_0000

  /** `time.Time.Sub`: the difference, saturated to a 64-bit duration. */
  function Elapsed(later: int, earlier: int): int {
    var d := later - earlier;
    if d > MAX_DURATION then MAX_DURATION else if d < MIN_DURATION then MIN_DURATION else d
  }

  /** A difference that fits in 64 bits is exact; any other ends at the nearer bound. */
  lemma ElapsedExactly(later: int, earlier: int)
    ensures var (s, d) := (Elapsed(later, earlier), later - earlier); (
      && -9_223_372_036_854_775_808 <= s <= 9_223_372_036_854_775_807
      && (-9_223_372_036_854_775_808 <= d <= 9_223_372_036_854_775_807 <==> s == d)
      && (s < d ==> s == 9_223_372_036_854_775_807) && (s > d ==> s == -9_223_372_036_854_775_808))
  {
  }

  predicate ExceedsMaxAge(limitSeconds: int, age: int) {
    age > limitSeconds * NANOS_PER_SECOND
  }

  method AllowsProducer(allowed: seq<string>, producerType: string) returns (allows: bool)
    ensures allows <==> producerType in allowed
  {
    for i := 0 to |allowed|
      invariant producerType !in allowed[..i]
    {
      if allowed[i] == producerType {
        return true;
      }
    }
    allows := false;
  }

  function DeriveFact(r: Requirement, e: Evidence, at: int): Fact {
    if e.binding.OtherRevision? then StaleRevision
    else if e.finishedAt > at then StaleFuture
    else if r.maxAgeSeconds.Some? && ExceedsMaxAge(r.maxAgeSeconds.value, Elapsed(at, e.finishedAt)) then StaleAge
    else if e.producerType !in r.allowedProducers then UntrustedProducer
    else Candidate
  }

  /** The longest age limit, in seconds, that a 64-bit duration can exceed. */
  const LARGEST_LIMIT := 9_223_372_036

  /**
   Saturated ages decide exactly as unbounded ones for every evaluation
   instant up to and including this limit, and for no larger limit; above it
   nothing is ever too old.
   */
  lemma AgeComparisonExact(limitSeconds: int)
    ensures (forall at, finished :: finished <= at ==>
              (ExceedsMaxAge(limitSeconds, Elapsed(at, finished)) <==> at - finished > limitSeconds * NANOS_PER_SECOND))
       <==> limitSeconds <= LARGEST_LIMIT
    ensures limitSeconds > LARGEST_LIMIT ==>
      forall at, finished :: !ExceedsMaxAge(limitSeconds, Elapsed(at, finished))
  {
    if limitSeconds > LARGEST_LIMIT {
      var age := limitSeconds * NANOS_PER_SECOND + 1;
      assert age - 0 > limitSeconds * NANOS_PER_SECOND && !ExceedsMaxAge(limitSeconds, Elapsed(age, 0));
    }
  }

  /** The envelope is no older than the limit, in unbounded integers; a limit above the largest is no limit. */
  predicate Young(r: Requirement, e: Evidence, at: int) {
    match r.maxAgeSeconds
    case None => true
    case Some(limit) => limit > LARGEST_LIMIT || at - e.finishedAt <= limit * NANOS_PER_SECOND
  }

  /**
   What each fact says of an envelope's own fields. A wrong revision comes
   first, then a finish after the instant, then the age, then the producer.
   */
  predicate HasFact(r: Requirement, e: Evidence, at: int, f: Fact) {
    match f
    case StaleRevision => !e.binding.Exact?
    case StaleFuture => e.binding.Exact? && at < e.finishedAt
    case StaleAge => e.binding.Exact? && e.finishedAt <= at && !Young(r, e, at)
    case UntrustedProducer =>
      e.binding.Exact? && e.finishedAt <= at && Young(r, e, at) && e.producerType !in r.allowedProducers
    case Candidate =>
      e.binding.Exact? && e.finishedAt <= at && Young(r, e, at) && e.producerType in r.allowedProducers
  }

  /** The derived fact is the one whose description fits. */
  lemma FactTable(r: Requirement, e: Evidence, at: int, f: Fact)
    ensures DeriveFact(r, e, at) == f <==> HasFact(r, e, at, f)
  {
    if r.maxAgeSeconds.Some? {
      AgeComparisonExact(r.maxAgeSeconds.value);
    }
  }

  /** Classifies one envelope, asking the allowlist last. */
  method Classify(r: Requirement, e: Evidence, at: int) returns (f: Fact)
    ensures f == DeriveFact(r, e, at) && HasFact(r, e, at, f)
  {
    FactTable(r, e, at, DeriveFact(r, e, at));
    if e.binding.OtherRevision? {
      return StaleRevision;
    }
    if e.finishedAt > at {
      return StaleFuture;
    }
    if r.maxAgeSeconds.Some? && ExceedsMaxAge(r.maxAgeSeconds.value, Elapsed(at, e.finishedAt)) {
      return StaleAge;
    }
    var allowed := AllowsProducer(r.allowedProducers, e.producerType);
    f := if allowed then Candidate else UntrustedProducer;
  }

  /** The last instant at which evidence finished at `finished` is young enough. */
  function FreshUntil(finished: int, limitSeconds: int): int {
    finished + limitSeconds * NANOS_PER_SECOND
  }

  /** Evidence of the exact revision is early, then usable, then too old, as the instant grows. */
  lemma FactPhases(r: Requirement, e: Evidence, at: int)
    requires e.binding.Exact? && r.maxAgeSeconds.Some?
    ensures DeriveFact(r, e, at).StaleFuture? <==> at < e.finishedAt
    ensures var limit := r.maxAgeSeconds.value; var fact := DeriveFact(r, e, at); (
      && (limit <= LARGEST_LIMIT ==>
            && (fact.StaleAge? <==> at >= e.finishedAt && at > FreshUntil(e.finishedAt, limit))
            && (fact.Candidate? || fact.UntrustedProducer? <==> e.finishedAt <= at <= FreshUntil(e.finishedAt, limit)))
      && (limit > LARGEST_LIMIT ==>
            && !fact.StaleAge?
            && (fact.Candidate? || fact.UntrustedProducer? <==> e.finishedAt <= at)))
  {
  }

  /** Rank of a fact in the order an exact-revision envelope passes through them. */
  function Phase(f: Fact): int {
    match f
    case StaleFuture => 0
    case StaleAge => 2
    case _ => 1
  }

  /** A later instant never moves an envelope back to an earlier phase, nor changes its producer's standing. */
  lemma FactsAdvance(r: Requirement, e: Evidence, at: int, later: int)
    requires at <= later
    ensures Phase(DeriveFact(r, e, at)) <= Phase(DeriveFact(r, e, later))
    ensures Phase(DeriveFact(r, e, at)) == Phase(DeriveFact(r, e, later)) ==>
      DeriveFact(r, e, at) == DeriveFact(r, e, later)
  {
  }

  /** A requirement at least as strict: a lower or new age limit, fewer producers. */
  ghost predicate Tightened(loose: Requirement, tight: Requirement) {
    && tight.id == loose.id && tight.evidenceType == loose.evidenceType && tight.waivable == loose.waivable
    && (forall p :: p in tight.allowedProducers ==> p in loose.allowedProducers)
    && (loose.maxAgeSeconds.Some? ==>
          tight.maxAgeSeconds.Some? && tight.maxAgeSeconds.value <= loose.maxAgeSeconds.value)
  }

  /** What a stricter requirement still takes as a candidate, the looser one takes too. */
  lemma TighteningKeepsCandidates(loose: Requirement, tight: Requirement, e: Evidence, at: int)
    requires Tightened(loose, tight) && DeriveFact(tight, e, at).Candidate?
    ensures DeriveFact(loose, e, at).Candidate?
  {
  }
}
