/** The key source that fetches and caches an issuer's JWKS document, for one lookup at a time. */
module Jwks {
  import opened Domain
  import opened Seqs

  /** An RSA public key, by modulus and exponent. */
  datatype PublicKey = PublicKey(modulus: nat, exponent: int)

  /** A document entry; `modulus` and `exponent` are absent when their text does not decode. */
  datatype Jwk = Jwk(kty: string, kid: string, modulus: Option<nat>, exponent: Option<int>)

  /** What one request to the well-known URL yields: no usable document, or its entries. */
  datatype Response = Unavailable | Document(keys: seq<Jwk>)

  datatype LookupError = NotFound | FetchFailed | NotFoundAfterRefresh

  predicate Usable(k: Jwk) { k.modulus.Some? && k.exponent.Some? }

  /** The RSA entries by kid, a later entry replacing an earlier one; refused if one does not decode. */
  function KeyTable(keys: seq<Jwk>): Option<map<string, PublicKey>> {
    if keys == [] then Some(map[])
    else
      var k := keys[|keys| - 1];
      match KeyTable(keys[..|keys| - 1])
      case None => None
      case Some(table) =>
        if k.kty != "RSA" then Some(table)
        else if !Usable(k) then None
        else Some(table[k.kid := PublicKey(k.modulus.value, k.exponent.value)])
  }

  /** The table a response installs, if it installs one. */
  function Fetched(response: Response): Option<map<string, PublicKey>> {
    match response
    case Unavailable => None
    case Document(keys) => KeyTable(keys)
  }

  method DecodeKeys(keys: seq<Jwk>) returns (table: Option<map<string, PublicKey>>)
    ensures table == KeyTable(keys)
  {
    var built: map<string, PublicKey> := map[];
    for i := 0 to |keys|
      invariant KeyTable(keys[..i]) == Some(built)
    {
      assert keys[..i + 1][..i] == keys[..i];
      var k := keys[i];
      if k.kty == "RSA" {
        if k.modulus.None? || k.exponent.None? {
          RefusedStays(keys, i + 1);
          return None;
        }
        built := built[k.kid := PublicKey(k.modulus.value, k.exponent.value)];
      }
    }
    assert keys[..|keys|] == keys;
    table := Some(built);
  }

  lemma {:induction false} RefusedStays(keys: seq<Jwk>, i: nat)
    requires i <= |keys| && KeyTable(keys[..i]).None?
    ensures KeyTable(keys).None?
    decreases |keys| - i
  {
    if i == |keys| {
      assert keys[..i] == keys;
    } else {
      assert keys[..i + 1][..i] == keys[..i];
      RefusedStays(keys, i + 1);
    }
  }

  /** The cache's fields. */
  datatype State = State(keys: map<string, PublicKey>, refreshedFor: string)

  const INITIAL := State(map[], "")

  /** A lookup that goes to the network. */
  predicate Fetches(s: State, kid: string) {
    kid !in s.keys && s.refreshedFor != kid
  }

  /** The fields after a lookup, given what a fetch would yield. */
  function Step(s: State, kid: string, response: Response): State {
    if !Fetches(s, kid) then s
    else if Fetched(response).None? then s.(refreshedFor := kid)
    else State(Fetched(response).value, kid)
  }

  /** What the caller gets. */
  function Answer(s: State, kid: string, response: Response): Result<PublicKey, LookupError> {
    if kid in s.keys then Ok(s.keys[kid])
    else if s.refreshedFor == kid then Err(NotFound)
    else if Fetched(response).None? then Err(FetchFailed)
    else if kid in Fetched(response).value then Ok(Fetched(response).value[kid])
    else Err(NotFoundAfterRefresh)
  }

  class KeySource {
    var keys: map<string, PublicKey>
    var refreshedFor: string

    ghost function Fields(): State
      reads this
    {
      State(keys, refreshedFor)
    }

    constructor ()
      ensures Fields() == INITIAL
    {
      keys, refreshedFor := map[], "";
    }

    /** Replaces the key table by a fetched document's. */
    method Fetch(response: Response) returns (ok: bool)
      modifies this`keys
      ensures ok <==> Fetched(response).Some?
      ensures keys == if ok then Fetched(response).value else old(keys)
    {
      match response {
        case Unavailable => return false;
        case Document(entries) =>
          var table := DecodeKeys(entries);
          if table.None? {
            return false;
          }
          keys := table.value;
          ok := true;
      }
    }

    /** Looks a key up; `response` is what the issuer would answer now. */
    method Key(kid: string, response: Response) returns (r: Result<PublicKey, LookupError>)
      modifies this
      ensures Fields() == Step(old(Fields()), kid, response)
      ensures r == Answer(old(Fields()), kid, response)
    {
      if kid in keys {
        return Ok(keys[kid]);
      }
      if refreshedFor == kid {
        return Err(NotFound);
      }
      refreshedFor := kid;
      var ok := Fetch(response);
      if !ok {
        return Err(FetchFailed);
      }
      if kid !in keys {
        return Err(NotFoundAfterRefresh);
      }
      r := Ok(keys[kid]);
    }
  }

  // ---- runs of lookups ----

  datatype Lookup = Lookup(kid: string, response: Response)

  /** The fields after a run that starts with an empty cache. */
  function After(run: seq<Lookup>): State {
    if run == [] then INITIAL
    else Step(After(run[..|run| - 1]), run[|run| - 1].kid, run[|run| - 1].response)
  }

  /** Lookup `i` of the run goes to the network. */
  predicate FetchesAt(run: seq<Lookup>, i: int) {
    0 <= i < |run| && Fetches(After(run[..i]), run[i].kid)
  }

  /** The kids fetched for, in order. */
  function FetchedKids(run: seq<Lookup>): seq<string> {
    if run == [] then []
    else
      FetchedKids(run[..|run| - 1]) + if FetchesAt(run, |run| - 1) then [run[|run| - 1].kid] else []
  }

  /** Lookup `i` starts a block of equal consecutive kids. */
  predicate StartsBlock(run: seq<Lookup>, i: int) {
    0 <= i < |run| && (i == 0 || run[i - 1].kid != run[i].kid)
  }

  /** The number of maximal blocks of equal consecutive kids. */
  function Blocks(run: seq<Lookup>): nat {
    if run == [] then 0 else Blocks(run[..|run| - 1]) + if StartsBlock(run, |run| - 1) then 1 else 0
  }

  /** After a lookup, the same kid looked up again does not fetch, whatever the issuer would answer. */
  lemma NoRefetch(s: State, kid: string, response: Response)
    ensures !Fetches(Step(s, kid, response), kid)
  {
  }

  lemma AfterSnoc(run: seq<Lookup>, i: nat)
    requires i < |run|
    ensures After(run[..i + 1]) == Step(After(run[..i]), run[i].kid, run[i].response)
  {
    assert run[..i + 1][..i] == run[..i];
  }

  /** Only the first lookup of a block can fetch. */
  lemma FetchStartsBlock(run: seq<Lookup>, i: int)
    requires FetchesAt(run, i)
    ensures StartsBlock(run, i)
  {
  }

  /** The last kid a run fetched for, or the initial empty mark. */
  function LastFetched(run: seq<Lookup>): string {
    if FetchedKids(run) == [] then "" else FetchedKids(run)[|FetchedKids(run)| - 1]
  }

  /** The field remembers the last kid fetched for, and nothing older. */
  lemma {:induction false} MarkIsLastFetched(run: seq<Lookup>)
    ensures After(run).refreshedFor == LastFetched(run)
  {
    if run != [] {
      MarkIsLastFetched(run[..|run| - 1]);
    }
  }

  /** Over every run there are at most as many fetches as blocks of equal consecutive kids. */
  lemma {:induction false} FetchBound(run: seq<Lookup>)
    ensures |FetchedKids(run)| <= Blocks(run)
  {
    if run != [] {
      FetchBound(run[..|run| - 1]);
      if FetchesAt(run, |run| - 1) {
        FetchStartsBlock(run, |run| - 1);
      }
    }
  }

  /** No two consecutive fetches are for the same kid, and the first is never for the empty kid. */
  lemma {:induction false} ConsecutiveFetchesDiffer(run: seq<Lookup>)
    ensures var f := FetchedKids(run);
      (f != [] ==> f[0] != "") && forall i :: 0 < i < |f| ==> f[i - 1] != f[i]
  {
    if run != [] {
      ConsecutiveFetchesDiffer(run[..|run| - 1]);
      MarkIsLastFetched(run[..|run| - 1]);
    }
  }

  /** The table of the last document successfully fetched, if any was. */
  function LastTable(run: seq<Lookup>): map<string, PublicKey> {
    if run == [] then map[]
    else
      var fetched := Fetched(run[|run| - 1].response);
      if FetchesAt(run, |run| - 1) && fetched.Some? then fetched.value else LastTable(run[..|run| - 1])
  }

  /** Every key returned comes from the last document successfully fetched, that lookup's own included. */
  lemma {:induction false} KeysFromLastDocument(run: seq<Lookup>)
    ensures After(run).keys == LastTable(run)
    ensures run != [] ==>
      var n := |run| - 1;
      var answer := Answer(After(run[..n]), run[n].kid, run[n].response);
      answer.Ok? ==> run[n].kid in LastTable(run) && answer.value == LastTable(run)[run[n].kid]
  {
    if run != [] {
      KeysFromLastDocument(run[..|run| - 1]);
    }
  }

  /** What lookup `i` of a run answers. */
  function AnswerAt(run: seq<Lookup>, i: nat): Result<PublicKey, LookupError>
    requires i < |run|
  {
    Answer(After(run[..i]), run[i].kid, run[i].response)
  }

  /**
   A lookup answers with a key exactly when the last installed table, its own
   fetch included, holds the kid, and then with that key. Otherwise the error
   says why: nothing was fetched, what was fetched is unusable, or it does not
   serve the kid.
   */
  lemma AnswersExactly(run: seq<Lookup>, i: nat)
    requires i < |run|
    ensures var table := LastTable(run[..i + 1]); var answer := AnswerAt(run, i); var kid := run[i].kid; (
      && (answer.Ok? <==> kid in table)
      && (answer.Ok? ==> answer.value == table[kid])
      && (answer == Err(NotFound) <==> !FetchesAt(run, i) && kid !in table)
      && (answer == Err(FetchFailed) <==> FetchesAt(run, i) && Fetched(run[i].response).None?)
      && (answer == Err(NotFoundAfterRefresh) <==>
            FetchesAt(run, i) && Fetched(run[i].response).Some? && kid !in Fetched(run[i].response).value))
  {
    KeysFromLastDocument(run[..i]);
    KeysFromLastDocument(run[..i + 1]);
    AfterSnoc(run, i);
  }

  /** A fresh source answers with the key that the issuer serves. */
  lemma FirstLookupServed(kid: string, response: Response)
    requires kid != "" && Fetched(response).Some? && kid in Fetched(response).value
    ensures AnswerAt([Lookup(kid, response)], 0) == Ok(Fetched(response).value[kid])
  {
    assert [Lookup(kid, response)][..0] == [];
  }

  /** Entry `i` is the last RSA entry with the kid. */
  predicate LastEntry(keys: seq<Jwk>, i: int, kid: string) {
    0 <= i < |keys| && keys[i].kty == "RSA" && keys[i].kid == kid
    && forall j :: i < j < |keys| && keys[j].kty == "RSA" ==> keys[j].kid != kid
  }

  lemma LastEntrySnoc(keys: seq<Jwk>, i: int, kid: string)
    requires keys != []
    ensures var n := |keys| - 1; var replaced := keys[n].kty == "RSA" && keys[n].kid == kid;
      LastEntry(keys, i, kid) <==> if i == n then replaced else LastEntry(keys[..n], i, kid) && !replaced
  {
  }

  /** A document is usable exactly when every RSA entry decodes. */
  lemma {:induction false} UsableExactly(keys: seq<Jwk>)
    ensures KeyTable(keys).Some? <==>
      forall i :: 0 <= i < |keys| && keys[i].kty == "RSA" ==> keys[i].modulus.Some? && keys[i].exponent.Some?
  {
    if keys != [] {
      UsableExactly(keys[..|keys| - 1]);
    }
  }

  /** A usable document's table holds exactly the kids of its RSA entries, each with the last entry's key. */
  lemma {:induction false} TableExactly(keys: seq<Jwk>, kid: string)
    requires KeyTable(keys).Some?
    ensures kid in KeyTable(keys).value <==> exists i :: LastEntry(keys, i, kid)
    ensures forall i :: LastEntry(keys, i, kid) ==>
      && keys[i].modulus.Some? && keys[i].exponent.Some? && kid in KeyTable(keys).value
      && KeyTable(keys).value[kid] == PublicKey(keys[i].modulus.value, keys[i].exponent.value)
  {
    if keys != [] {
      var n := |keys| - 1;
      TableExactly(keys[..n], kid);
      forall i
        ensures LastEntry(keys, i, kid) <==>
          if i == n then keys[n].kty == "RSA" && keys[n].kid == kid
          else LastEntry(keys[..n], i, kid) && !(keys[n].kty == "RSA" && keys[n].kid == kid)
      {
        LastEntrySnoc(keys, i, kid);
      }
      assert LastEntry(keys, n, kid) <==> keys[n].kty == "RSA" && keys[n].kid == kid;
      if i :| LastEntry(keys[..n], i, kid) {
        assert i < n;
        assert LastEntry(keys, i, kid) || LastEntry(keys, n, kid);
      }
    }
  }

  /**
   A lookup fetches exactly when its kid is missing from the last table and is
   not the last kid fetched for; whether it was fetched for earlier is forgotten.
   */
  lemma RefetchExactly(run: seq<Lookup>, i: nat)
    requires i < |run|
    ensures FetchesAt(run, i) <==> run[i].kid !in LastTable(run[..i]) && LastFetched(run[..i]) != run[i].kid
  {
    MarkIsLastFetched(run[..i]);
    KeysFromLastDocument(run[..i]);
  }

  /** A kid fetched for before is in the current table, or is the last kid fetched for. */
  predicate Remembered(run: seq<Lookup>, i: nat)
    requires i < |run|
  {
    run[i].kid in FetchedKids(run[..i]) ==> run[i].kid in LastTable(run[..i]) || LastFetched(run[..i]) == run[i].kid
  }

  lemma FetchedSnoc(run: seq<Lookup>, n: nat)
    requires n < |run|
    ensures FetchedKids(run[..n + 1])
         == if FetchesAt(run, n) then FetchedKids(run[..n]) + [run[n].kid] else FetchedKids(run[..n])
  {
    assert run[..n + 1][..n] == run[..n];
  }

  lemma DistinctSnoc(s: seq<string>, x: string)
    ensures Distinct(s + [x]) <==> Distinct(s) && x !in s
  {
    if Distinct(s + [x]) {
      forall i, j | 0 <= i < j < |s| ensures s[i] != s[j] {
        assert (s + [x])[i] == s[i] && (s + [x])[j] == s[j];
      }
      forall i | 0 <= i < |s| ensures s[i] != x {
        assert (s + [x])[i] == s[i] && (s + [x])[|s|] == x;
      }
    }
  }

  /** One more lookup keeps the fetches distinct exactly when its kid, if fetched for before, is remembered. */
  lemma OneMoreFetch(run: seq<Lookup>, n: nat)
    requires n < |run|
    ensures Distinct(FetchedKids(run[..n + 1])) <==> Distinct(FetchedKids(run[..n])) && Remembered(run, n)
  {
    FetchedSnoc(run, n);
    DistinctSnoc(FetchedKids(run[..n]), run[n].kid);
    RefetchExactly(run, n);
  }

  lemma {:induction false} OncePerKidUpTo(run: seq<Lookup>, n: nat)
    requires n <= |run|
    ensures Distinct(FetchedKids(run[..n])) <==> forall i :: 0 <= i < n ==> Remembered(run, i)
  {
    if n > 0 {
      OncePerKidUpTo(run, n - 1);
      OneMoreFetch(run, n - 1);
    }
  }

  /**
   One refresh per distinct kid is promised and does not hold of every run. It
   holds of a run exactly when every lookup of a kid fetched for before finds
   it in the current table, or finds it to be the last kid fetched for.
   */
  lemma OncePerKidExactly(run: seq<Lookup>)
    ensures Distinct(FetchedKids(run)) <==> forall i :: 0 <= i < |run| ==> Remembered(run, i)
  {
    OncePerKidUpTo(run, |run|);
    assert run[..|run|] == run;
  }

  // ---- kids the issuer does not serve ----

  /** No response of the run serves the kid of any of its lookups. */
  predicate Unserved(run: seq<Lookup>) {
    forall i, j :: 0 <= i < |run| && 0 <= j < |run| && Fetched(run[i].response).Some? ==>
      run[j].kid !in Fetched(run[i].response).value
  }

  /** After a lookup of such a run the mark is its kid, and no kid of the run is in the table. */
  lemma {:induction false} UnservedMark(run: seq<Lookup>, n: nat)
    requires Unserved(run) && n <= |run|
    ensures After(run[..n]).refreshedFor == if n == 0 then "" else run[n - 1].kid
    ensures forall j :: 0 <= j < |run| ==> run[j].kid !in After(run[..n]).keys
  {
    if n > 0 {
      UnservedMark(run, n - 1);
      AfterSnoc(run, n - 1);
    }
  }

  /** Of an unserved run every block fetches, but for a first block of the empty kid. */
  lemma UnservedFetchesAt(run: seq<Lookup>, i: nat)
    requires Unserved(run) && i < |run|
    ensures FetchesAt(run, i) <==> StartsBlock(run, i) && !(i == 0 && run[0].kid == "")
  {
    UnservedMark(run, i);
  }

  lemma BlocksSnoc(run: seq<Lookup>, n: nat)
    requires n < |run|
    ensures Blocks(run[..n + 1]) == Blocks(run[..n]) + if StartsBlock(run, n) then 1 else 0
  {
    assert run[..n + 1][..n] == run[..n];
  }

  lemma {:induction false} UnservedCount(run: seq<Lookup>, n: nat)
    requires Unserved(run) && n <= |run|
    ensures |FetchedKids(run[..n])| == Blocks(run[..n]) - if n > 0 && run[0].kid == "" then 1 else 0
  {
    if n > 0 {
      UnservedCount(run, n - 1);
      FetchedSnoc(run, n - 1);
      BlocksSnoc(run, n - 1);
      UnservedFetchesAt(run, n - 1);
    }
  }

  /** Looking up unserved kids costs one fetch per block, so the bound on fetches is reached by every such run. */
  lemma UnservedFetchEveryBlock(run: seq<Lookup>)
    requires Unserved(run)
    ensures |FetchedKids(run)| == Blocks(run) - if run != [] && run[0].kid == "" then 1 else 0
  {
    UnservedCount(run, |run|);
    assert run[..|run|] == run;
  }

  /** A run of three lookups that fetches twice for one kid. */
  lemma AlternatingRefetches()
    ensures var miss := Document([]); var run := [Lookup("a", miss), Lookup("b", miss), Lookup("a", miss)]; (
      && FetchedKids(run) == ["a", "b", "a"] && !Distinct(FetchedKids(run)) && !Remembered(run, 2))
  {
    var miss := Document([]);
    var run := [Lookup("a", miss), Lookup("b", miss), Lookup("a", miss)];
    assert KeyTable([]) == Some(map[]);
    UnservedFetchesAt(run, 0);
    UnservedFetchesAt(run, 1);
    UnservedFetchesAt(run, 2);
    FetchedSnoc(run, 0);
    FetchedSnoc(run, 1);
    FetchedSnoc(run, 2);
    assert run[..3] == run && run[..0] == [];
    assert FetchedKids(run)[0] == FetchedKids(run)[2];
    RefetchExactly(run, 2);
  }
}
