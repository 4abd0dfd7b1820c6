/** The scan accepts exactly the duplicate-free trees, and consumes exactly their tokens. */
module StrictJsonLaws {
  import opened Seqs
  import opened StrictJson

  lemma TokensOpen(j: Json)
    ensures Tokens(j) != [] && !Closing(Tokens(j)[0])
  {
  }

  /** On the tokens of a tree and any rest: accepted exactly when duplicate-free, leaving exactly the rest. */
  lemma {:induction false} ScanTree(j: Json, rest: seq<Token>)
    ensures Scan(Tokens(j) + rest) == if DuplicateFree(j) then Some(rest) else None
    decreases j, 2
  {
    var ts := Tokens(j) + rest;
    match j
    case Literal(_) => assert ts[1..] == rest;
    case String(_) => assert ts[1..] == rest;
    case Array(items) =>
      assert ts[1..] == ItemTokens(items) + ([ArrayClose] + rest);
      ScanItems(items, rest);
    case Object(members) =>
      assert ts[1..] == MemberTokens(members) + ([ObjectClose] + rest);
      ScanMembersTree(members, {}, rest);
  }

  lemma {:induction false} ScanItems(items: seq<Json>, rest: seq<Token>)
    ensures ScanElements(ItemTokens(items) + ([ArrayClose] + rest)) == if ItemsFree(items) then Some(rest) else None
    decreases items, 1
  {
    var ts := ItemTokens(items) + ([ArrayClose] + rest);
    if items == [] {
      assert ts == [ArrayClose] + rest && ts[1..] == rest;
    } else {
      var after := ItemTokens(items[1..]) + ([ArrayClose] + rest);
      assert ts == Tokens(items[0]) + after;
      TokensOpen(items[0]);
      ScanTree(items[0], after);
      ScanItems(items[1..], rest);
      ItemsFreeCons(items);
    }
  }

  lemma ItemsFreeCons(items: seq<Json>)
    requires items != []
    ensures ItemsFree(items) <==> DuplicateFree(items[0]) && ItemsFree(items[1..])
  {
  }

  lemma MembersFreeCons(members: seq<Member>, seen: set<string>)
    requires members != []
    ensures MembersFree(members, seen) <==> (
      && members[0].key !in seen && DuplicateFree(members[0].value)
      && MembersFree(members[1..], seen + {members[0].key}))
  {
  }

  lemma {:induction false} ScanMembersTree(members: seq<Member>, seen: set<string>, rest: seq<Token>)
    ensures ScanMembers(MemberTokens(members) + ([ObjectClose] + rest), seen)
         == if MembersFree(members, seen) then Some(rest) else None
    decreases members, 1
  {
    var ts := MemberTokens(members) + ([ObjectClose] + rest);
    if members == [] {
      assert ts == [ObjectClose] + rest && ts[1..] == rest;
    } else {
      var after := MemberTokens(members[1..]) + ([ObjectClose] + rest);
      assert ts[1..] == Tokens(members[0].value) + after;
      assert ts[0] == Text(members[0].key);
      ScanTree(members[0].value, after);
      ScanMembersTree(members[1..], seen + {members[0].key}, rest);
      MembersFreeCons(members, seen);
    }
  }

  /** Whatever the scan accepts is a duplicate-free tree followed by what it leaves. */
  lemma {:induction false} ScanFindsTree(ts: seq<Token>) returns (j: Json)
    requires Scan(ts).Some?
    ensures ts == Tokens(j) + Scan(ts).value && DuplicateFree(j)
    decreases |ts|, 0
  {
    match ts[0] {
      case ObjectOpen =>
        var members := ScanFindsMembers(ts[1..], {});
        j := Object(members);
        assert ts == [ObjectOpen] + ts[1..];
      case ArrayOpen =>
        var items := ScanFindsItems(ts[1..]);
        j := Array(items);
        assert ts == [ArrayOpen] + ts[1..];
      case Text(s) =>
        j := String(s);
      case Scalar(text) =>
        j := Literal(text);
    }
  }

  lemma {:induction false} ScanFindsItems(ts: seq<Token>) returns (items: seq<Json>)
    requires ScanElements(ts).Some?
    ensures ts == ItemTokens(items) + ([ArrayClose] + ScanElements(ts).value) && ItemsFree(items)
    decreases |ts|, 1
  {
    if !MoreIn(ts) {
      items := [];
    } else {
      var first := ScanFindsTree(ts);
      var after := Scan(ts).value;
      var others := ScanFindsItems(after);
      items := [first] + others;
      assert items[0] == first && items[1..] == others;
      assert ItemTokens(items) == Tokens(first) + ItemTokens(others);
      var end := [ArrayClose] + ScanElements(after).value;
      assert ts == Tokens(first) + (ItemTokens(others) + end);
      assert ts == ItemTokens(items) + end;
      ItemsFreeCons(items);
    }
  }

  lemma {:induction false} ScanFindsMembers(ts: seq<Token>, seen: set<string>) returns (members: seq<Member>)
    requires ScanMembers(ts, seen).Some?
    ensures ts == MemberTokens(members) + ([ObjectClose] + ScanMembers(ts, seen).value) && MembersFree(members, seen)
    decreases |ts|, 1
  {
    if !MoreIn(ts) {
      members := [];
    } else {
      var value := ScanFindsTree(ts[1..]);
      var others := ScanFindsMembers(Scan(ts[1..]).value, seen + {ts[0].value});
      members := [Member(ts[0].value, value)] + others;
      assert members[1..] == others;
      assert ts == [ts[0]] + ts[1..];
      MembersFreeCons(members, seen);
    }
  }

  /** A document is accepted exactly when it is one duplicate-free tree and nothing more. */
  lemma AcceptsExactly(ts: seq<Token>)
    ensures Accepts(ts) <==> exists j :: Tokens(j) == ts && DuplicateFree(j)
  {
    if Accepts(ts) {
      var j := ScanFindsTree(ts);
      assert Tokens(j) + [] == Tokens(j);
    }
    if j :| Tokens(j) == ts && DuplicateFree(j) {
      ScanTree(j, []);
      assert Tokens(j) + [] == Tokens(j);
    }
  }
}
