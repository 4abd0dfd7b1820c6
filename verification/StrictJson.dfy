/**
 The strict JSON structure scan, over the tokens a JSON decoder yields. The scan
 accepts exactly the token sequences of JSON values (section 4 of RFC 8259) in
 which no object, at any depth, repeats a key.
 */
module StrictJson {
  import opened Seqs

  datatype Token =
    | ObjectOpen | ObjectClose | ArrayOpen | ArrayClose
    | Text(value: string)
    | Scalar(literal: string)

  predicate Closing(t: Token) { t.ObjectClose? || t.ArrayClose? }

  /** Another element or member follows. */
  predicate MoreIn(ts: seq<Token>) { ts != [] && !Closing(ts[0]) }

  // ---- the scan, as a function of the remaining tokens ----

  /** What remains after one value, or a refusal. */
  function Scan(ts: seq<Token>): (rest: Option<seq<Token>>)
    ensures rest.Some? ==> |rest.value| < |ts|
    decreases |ts|, 0
  {
    if ts == [] then None
    else
      match ts[0]
      case ObjectOpen => ScanMembers(ts[1..], {})
      case ArrayOpen => ScanElements(ts[1..])
      case Text(_) => Some(ts[1..])
      case Scalar(_) => Some(ts[1..])
      case _ => None
  }

  function ScanMembers(ts: seq<Token>, seen: set<string>): (rest: Option<seq<Token>>)
    ensures rest.Some? ==> |rest.value| < |ts|
    decreases |ts|, 1
  {
    if !MoreIn(ts) then if ts != [] && ts[0].ObjectClose? then Some(ts[1..]) else None
    else if !ts[0].Text? || ts[0].value in seen then None
    else
      match Scan(ts[1..])
      case None => None
      case Some(rest) => ScanMembers(rest, seen + {ts[0].value})
  }

  function ScanElements(ts: seq<Token>): (rest: Option<seq<Token>>)
    ensures rest.Some? ==> |rest.value| < |ts|
    decreases |ts|, 1
  {
    if !MoreIn(ts) then if ts != [] && ts[0].ArrayClose? then Some(ts[1..]) else None
    else
      match Scan(ts)
      case None => None
      case Some(rest) => ScanElements(rest)
  }

  // ---- the scan as it runs, consuming a decoder ----

  class Decoder {
    var rest: seq<Token>

    constructor (tokens: seq<Token>)
      ensures rest == tokens
    {
      rest := tokens;
    }

    /** The next token; at the end of input there is none. */
    method Next() returns (t: Option<Token>)
      modifies this
      ensures old(rest) == [] ==> t.None? && rest == []
      ensures old(rest) != [] ==> t == Some(old(rest)[0]) && rest == old(rest)[1..]
    {
      if rest == [] {
        return None;
      }
      t := Some(rest[0]);
      rest := rest[1..];
    }

    method More() returns (more: bool)
      ensures more <==> MoreIn(rest)
    {
      more := rest != [] && !Closing(rest[0]);
    }
  }

  /** Scans the members of an object up to its closing brace. */
  method ScanObject(d: Decoder) returns (ok: bool)
    modifies d
    ensures ok <==> ScanMembers(old(d.rest), {}).Some?
    ensures ok ==> d.rest == ScanMembers(old(d.rest), {}).value
    decreases |d.rest|, 1
  {
    var seen: set<string> := {};
    var more := d.More();
    while more
      invariant |d.rest| <= |old(d.rest)|
      invariant more <==> MoreIn(d.rest)
      invariant ScanMembers(d.rest, seen) == ScanMembers(old(d.rest), {})
      decreases |d.rest|
    {
      var key := d.Next();
      if key.None? || !key.value.Text? {
        return false;
      }
      if key.value.value in seen {
        return false;
      }
      seen := seen + {key.value.value};
      var valueOk := ScanValue(d);
      if !valueOk {
        return false;
      }
      more := d.More();
    }
    var end := d.Next();
    ok := end == Some(ObjectClose);
  }

  /** Scans the elements of an array up to its closing bracket. */
  method ScanArray(d: Decoder) returns (ok: bool)
    modifies d
    ensures ok <==> ScanElements(old(d.rest)).Some?
    ensures ok ==> d.rest == ScanElements(old(d.rest)).value
    decreases |d.rest|, 1
  {
    var more := d.More();
    while more
      invariant |d.rest| <= |old(d.rest)|
      invariant more <==> MoreIn(d.rest)
      invariant ScanElements(d.rest) == ScanElements(old(d.rest))
      decreases |d.rest|
    {
      var valueOk := ScanValue(d);
      if !valueOk {
        return false;
      }
      more := d.More();
    }
    var end := d.Next();
    ok := end == Some(ArrayClose);
  }

  method ScanValue(d: Decoder) returns (ok: bool)
    modifies d
    ensures ok <==> Scan(old(d.rest)).Some?
    ensures ok ==> d.rest == Scan(old(d.rest)).value
    decreases |d.rest|, 0
  {
    var token := d.Next();
    if token.None? {
      return false;
    }
    match token.value {
      case ObjectOpen => ok := ScanObject(d);
      case ArrayOpen => ok := ScanArray(d);
      case Text(_) => ok := true;
      case Scalar(_) => ok := true;
      case _ => ok := false;
    }
  }

  predicate Accepts(ts: seq<Token>) { Scan(ts) == Some([]) }

  method ValidateStructure(tokens: seq<Token>) returns (ok: bool)
    ensures ok <==> Accepts(tokens)
  {
    var d := new Decoder(tokens);
    ok := ScanValue(d);
    if ok {
      var extra := d.Next();
      ok := extra.None?;
    }
  }

  // ---- trees ----

  datatype Json =
    | Literal(text: string)
    | String(value: string)
    | Array(items: seq<Json>)
    | Object(members: seq<Member>)

  datatype Member = Member(key: string, value: Json)

  function Tokens(j: Json): seq<Token>
    decreases j, 1
  {
    match j
    case Literal(text) => [Token.Scalar(text)]
    case String(s) => [Text(s)]
    case Array(items) => [ArrayOpen] + ItemTokens(items) + [ArrayClose]
    case Object(members) => [ObjectOpen] + MemberTokens(members) + [ObjectClose]
  }

  function ItemTokens(items: seq<Json>): seq<Token>
    decreases items, 0
  {
    if items == [] then [] else Tokens(items[0]) + ItemTokens(items[1..])
  }

  function MemberTokens(members: seq<Member>): seq<Token>
    decreases members, 0
  {
    if members == [] then []
    else [Text(members[0].key)] + Tokens(members[0].value) + MemberTokens(members[1..])
  }

  predicate KeysDistinct(members: seq<Member>) {
    forall i, j :: 0 <= i < j < |members| ==> members[i].key != members[j].key
  }

  /** No object at any depth repeats a key. */
  predicate DuplicateFree(j: Json)
    decreases j
  {
    match j
    case Literal(_) => true
    case String(_) => true
    case Array(items) => forall k :: 0 <= k < |items| ==> DuplicateFree(items[k])
    case Object(members) => KeysDistinct(members) && forall k :: 0 <= k < |members| ==> DuplicateFree(members[k].value)
  }

  predicate ItemsFree(items: seq<Json>) {
    forall k :: 0 <= k < |items| ==> DuplicateFree(items[k])
  }

  /** Members that may follow the keys already seen. */
  predicate MembersFree(members: seq<Member>, seen: set<string>) {
    && KeysDistinct(members)
    && forall k :: 0 <= k < |members| ==> members[k].key !in seen && DuplicateFree(members[k].value)
  }
}
