/** The pieces of identities, by their characters: hosts, paths, identifiers and object ids. */
module IdentityParts {
  import opened Identity
  import opened Seqs
  import opened Text

  // ---- text ----

  /** `part` occurs in `s`. */
  ghost predicate Within(part: string, s: string) { exists before, after :: s == before + part + after }

  lemma ContainsExactly(s: string, part: string)
    ensures Contains(s, part) <==> Within(part, s)
  {
    if i :| 0 <= i <= |s| - |part| && PartAt(s, part, i) {
      assert s == s[..i] + part + s[i + |part|..];
    }
    if before, after :| s == before + part + after {
      assert s[|before|..|before| + |part|] == part;
      assert PartAt(s, part, |before|);
    }
  }

  lemma PrefixExactly(s: string, part: string)
    ensures HasPrefix(s, part) <==> exists after :: s == part + after
  {
    if HasPrefix(s, part) {
      assert s == part + s[|part|..];
    }
  }

  lemma SuffixExactly(s: string, part: string)
    ensures HasSuffix(s, part) <==> exists before :: s == before + part
  {
    if HasSuffix(s, part) {
      assert s == s[..|s| - |part|] + part;
    }
    if before :| s == before + part {
      assert s[|s| - |part|..] == part;
    }
  }

  /** The twenty-six upper-case letters become lower-case ones; nothing else changes. */
  lemma LowerExactly(c: char)
    ensures 'A' <= c <= 'Z' ==>
      'a' <= ToLowerChar(c) <= 'z' && ToLowerChar(c) as int - 'a' as int == c as int - 'A' as int
    ensures !('A' <= c <= 'Z') ==> ToLowerChar(c) == c
  {
  }

  // ---- paths ----

  function Slashed(s: string): string { "/" + s + "/" }

  lemma OnlySegment(path: string, segment: string)
    requires '/' !in path && '/' !in segment
    ensures Within(Slashed(segment), Slashed(path)) <==> segment == path
  {
    if segment == path {
      assert Slashed(path) == "" + Slashed(segment) + "";
    }
    if before, after :| Slashed(path) == before + Slashed(segment) + after {
      FirstOf(path, "", before, segment, after);
    }
  }

  lemma SlashFree(first: string, rest: string, k: nat)
    requires '/' !in first && 0 < k <= |first|
    ensures (Slashed(first) + rest)[k] != '/'
  {
    assert (Slashed(first) + rest)[k] == first[k - 1];
  }

  /** An occurrence that starts before the first segment ends is that segment. */
  lemma FirstOf(first: string, rest: string, before: string, segment: string, after: string)
    requires '/' !in first && '/' !in segment
    requires Slashed(first) + rest == before + Slashed(segment) + after && |before| <= |first|
    ensures before == "" && segment == first
  {
    var all := Slashed(first) + rest;
    assert all[|before|] == '/';
    if before != "" {
      SlashFree(first, rest, |before|);
    }
    assert all[1..] == first + "/" + rest && all[1..] == segment + "/" + after;
    FirstSeparator(first, rest, segment, after, '/');
  }

  lemma LaterWithin(first: string, rest: string, before: string, segment: string, after: string)
    requires Slashed(first + "/" + rest) == before + Slashed(segment) + after && |before| > |first|
    ensures Within(Slashed(segment), Slashed(rest))
  {
    var all := Slashed(first + "/" + rest);
    var cut := |first| + 1;
    assert all[cut..] == Slashed(rest);
    assert all[cut..] == before[cut..] + Slashed(segment) + after;
  }

  lemma WithinLater(first: string, rest: string, part: string)
    requires Within(part, Slashed(rest))
    ensures Within(part, Slashed(first + "/" + rest))
  {
    var before, after :| Slashed(rest) == before + part + after;
    assert Slashed(first + "/" + rest) == ("/" + first) + Slashed(rest);
    assert Slashed(first + "/" + rest) == (("/" + first) + before) + part + after;
  }

  lemma WithinStep(first: string, rest: string, segment: string)
    requires '/' !in first && '/' !in segment
    ensures Within(Slashed(segment), Slashed(first + "/" + rest)) <==>
      segment == first || Within(Slashed(segment), Slashed(rest))
  {
    var all := Slashed(first + "/" + rest);
    assert all == Slashed(first) + (rest + "/");
    if segment == first {
      assert all == "" + Slashed(segment) + (rest + "/");
    }
    if Within(Slashed(segment), Slashed(rest)) {
      WithinLater(first, rest, Slashed(segment));
    }
    if before, after :| all == before + Slashed(segment) + after {
      if |before| <= |first| {
        FirstOf(first, rest + "/", before, segment, after);
      } else {
        LaterWithin(first, rest, before, segment, after);
      }
    }
  }

  lemma SplitOnce(path: string) returns (first: string, rest: string)
    requires '/' in path
    ensures path == first + "/" + rest && '/' !in first && |rest| < |path|
    ensures Split(path, '/') == [first] + Split(rest, '/')
  {
    var i := IndexOf(path, '/');
    first, rest := path[..i], path[i + 1..];
  }

  lemma SplitNever(path: string)
    requires '/' !in path
    ensures Split(path, '/') == [path]
  {
  }

  /** The segments of a path are what stands between its slashes. */
  lemma {:induction false} SegmentsExactly(path: string, segment: string)
    requires '/' !in segment
    ensures segment in Split(path, '/') <==> Within(Slashed(segment), Slashed(path))
    decreases |path|
  {
    if '/' in path {
      var first, rest := SplitOnce(path);
      SegmentsExactly(rest, segment);
      WithinStep(first, rest, segment);
      InFront(first, Split(rest, '/'), segment);
    } else {
      SplitNever(path);
      OnlySegment(path, segment);
    }
  }

  lemma InFront(first: string, others: seq<string>, segment: string)
    ensures segment in [first] + others <==> segment == first || segment in others
  {
  }

  /** Characters that no accepted path holds. */
  predicate PathBreak(c: char) {
    c == '\\' || c == '\0' || c == '\r' || c == '\n' || c == '?' || c == '#'
  }

  predicate SomeHolds(segments: seq<string>, c: char) { exists segment :: segment in segments && c in segment }

  lemma HoldsInFront(first: string, others: seq<string>, c: char)
    ensures SomeHolds([first] + others, c) <==> c in first || SomeHolds(others, c)
  {
    assert first in [first] + others;
    assert forall segment :: segment in others ==> segment in [first] + others;
  }

  lemma CharacterStep(first: string, rest: string, c: char)
    requires c != '/'
    ensures c in first + "/" + rest <==> c in first || c in rest
  {
  }

  lemma {:induction false} CharactersKept(path: string, c: char)
    requires c != '/'
    ensures c in path <==> SomeHolds(Split(path, '/'), c)
    decreases |path|
  {
    if '/' in path {
      var first, rest := SplitOnce(path);
      CharactersKept(rest, c);
      CharacterStep(first, rest, c);
      HoldsInFront(first, Split(rest, '/'), c);
    } else {
      SplitNever(path);
      HoldsInFront(path, [], c);
      assert [path] + [] == [path];
    }
  }

  /** A path is accepted exactly when it is not empty, no segment is empty, `.` or `..`, and no character is refused. */
  lemma PathExactly(path: string)
    ensures PathOk(path) <==> (
      && path != "" && (forall c :: c in path ==> !PathBreak(c))
      && !Within("//", Slashed(path)) && !Within("/./", Slashed(path)) && !Within("/../", Slashed(path)))
  {
    assert Slashed("") == "//" && Slashed(".") == "/./" && Slashed("..") == "/../";
    SegmentsExactly(path, "");
    SegmentsExactly(path, ".");
    SegmentsExactly(path, "..");
    BreaksExactly(path);
    SegmentsTested(path);
  }

  predicate Plain(segment: string) { segment != "" && segment != "." && segment != ".." }

  predicate Clean(segment: string) { forall c :: c in segment ==> !SegmentBreak(c) }

  lemma SegmentsTested(path: string)
    ensures PathOk(path) <==> (
      && path != "" && '\\' !in path
      && (forall segment :: segment in Split(path, '/') ==> Plain(segment))
      && forall segment :: segment in Split(path, '/') ==> Clean(segment))
  {
    assert forall segment :: SegmentOk(segment) <==> Plain(segment) && Clean(segment);
  }

  lemma CleanExactly(segments: seq<string>)
    ensures (forall segment :: segment in segments ==> Clean(segment)) <==>
      forall c :: SegmentBreak(c) ==> !SomeHolds(segments, c)
  {
    forall segment | segment in segments && !Clean(segment)
      ensures exists c :: SegmentBreak(c) && SomeHolds(segments, c)
    {
      var c :| c in segment && SegmentBreak(c);
      assert SomeHolds(segments, c);
    }
  }

  lemma BreaksExactly(path: string)
    ensures (forall c :: c in path ==> !PathBreak(c)) <==>
      '\\' !in path && forall segment :: segment in Split(path, '/') ==> Clean(segment)
  {
    forall c | SegmentBreak(c) ensures c in path <==> SomeHolds(Split(path, '/'), c) {
      CharactersKept(path, c);
    }
    CleanExactly(Split(path, '/'));
    assert forall c :: PathBreak(c) <==> c == '\\' || SegmentBreak(c);
  }

  lemma CutFront(s: string, part: string) returns (front: string)
    ensures s == front + TrimPrefix(s, part)
    ensures front == if HasPrefix(s, part) then part else ""
  {
    front := if HasPrefix(s, part) then part else "";
  }

  lemma CutBack(s: string, part: string) returns (back: string)
    ensures s == TrimSuffix(s, part) + back
    ensures back == if HasSuffix(s, part) then part else ""
  {
    back := if HasSuffix(s, part) then part else "";
  }

  /**
   Trimming drops at most one slash in front, one behind and then one `.git`,
   and each of them if it is there.
   */
  lemma TrimmedExactly(path: string) returns (front: string, git: string, back: string)
    ensures path == front + (TrimmedPath(path) + git + back)
    ensures front == if HasPrefix(path, "/") then "/" else ""
    ensures back == if HasSuffix(TrimmedPath(path) + git + back, "/") then "/" else ""
    ensures git == if HasSuffix(TrimmedPath(path) + git, ".git") then ".git" else ""
  {
    front := CutFront(path, "/");
    back := CutBack(TrimPrefix(path, "/"), "/");
    git := CutBack(TrimSuffix(TrimPrefix(path, "/"), "/"), ".git");
  }

  // ---- hosts ----

  /** A space, or one of the five controls from tab to carriage return. */
  predicate White(c: char) { c == ' ' || c == '\t' || c == '\n' || c == 11 as char || c == 12 as char || c == '\r' }

  /** A host is not empty, holds none of seven characters, and no white space at either end. */
  lemma HostExactly(host: string)
    ensures HostOk(host) <==>
      host != "" && (forall c :: c in host ==> c !in " \t/@?#\\") && !White(host[0]) && !White(host[|host| - 1])
  {
    assert forall c :: c in " \t/@?#\\" <==> HostBreak(c);
  }

  /** Three providers, in any case. */
  lemma HostedExactly(host: string)
    ensures HostedProvider(host) <==> (
      ToLower(host) == "github.com" || ToLower(host) == "gitlab.com" || ToLower(host) == "bitbucket.org")
  {
  }

  // ---- identifiers ----

  predicate Alphanumeric(c: char) { 'a' <= c <= 'z' || 'A' <= c <= 'Z' || '0' <= c <= '9' }

  predicate IdentifierOf(first: char, rest: string) {
    && Alphanumeric(first) && |rest| <= 127
    && forall c :: c in rest ==> Alphanumeric(c) || c == '.' || c == '_' || c == '-'
  }

  lemma IdentifierParts(first: char, rest: string)
    ensures CanonicalIdentifier([first] + rest) <==> IdentifierOf(first, rest)
  {
    var s := [first] + rest;
    assert s[0] == first && forall c :: c in s <==> c == first || c in rest;
  }

  /** An identifier is a letter or digit and up to 127 letters, digits, dots, underscores and dashes. */
  lemma IdentifierExactly(s: string)
    ensures CanonicalIdentifier(s) <==> exists first, rest :: s == [first] + rest && IdentifierOf(first, rest)
  {
    if CanonicalIdentifier(s) {
      assert s == [s[0]] + s[1..];
      IdentifierParts(s[0], s[1..]);
    }
    if first, rest :| s == [first] + rest && IdentifierOf(first, rest) {
      IdentifierParts(first, rest);
    }
  }

  predicate Hexadecimal(s: string, n: nat) {
    |s| == n && forall c :: c in s ==> '0' <= c <= '9' || 'a' <= c <= 'f'
  }

  /** An object id is forty lower-case hexadecimal digits, or those and twenty-four more; a digest is all sixty-four. */
  lemma ObjectIdExactly(s: string)
    ensures ObjectId(s) <==> Hexadecimal(s, 40) || exists a, b :: s == a + b && Hexadecimal(a, 40) && Hexadecimal(b, 24)
    ensures DigestValue(s) <==> exists a, b :: s == a + b && Hexadecimal(a, 40) && Hexadecimal(b, 24)
  {
    if |s| == 64 {
      var a, b := s[..40], s[40..];
      assert s == a + b;
      assert forall c :: c in s <==> c in a || c in b;
    }
    if a, b :| s == a + b && Hexadecimal(a, 40) && Hexadecimal(b, 24) {
      assert forall c :: c in s <==> c in a || c in b;
    }
  }
}
