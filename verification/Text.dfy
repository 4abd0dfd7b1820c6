/** Strings as the program reads them: byte order, character classes, prefixes and separators. */
module Text {

  /** Byte order on strings, the order of Go's `<`. */
  predicate StringLeq(a: string, b: string) {
    a == "" || (b != "" && (a[0] < b[0] || (a[0] == b[0] && StringLeq(a[1..], b[1..]))))
  }

  predicate StringLess(a: string, b: string) {
    StringLeq(a, b) && a != b
  }

  lemma {:induction false} StringLeqTotal(a: string, b: string)
    ensures StringLeq(a, b) || StringLeq(b, a)
    ensures StringLeq(a, b) && StringLeq(b, a) ==> a == b
  {
    if a != "" && b != "" && a[0] == b[0] {
      StringLeqTotal(a[1..], b[1..]);
      assert a == [a[0]] + a[1..] && b == [b[0]] + b[1..];
    }
  }

  lemma {:induction false} StringLeqTransitive(a: string, b: string, c: string)
    requires StringLeq(a, b) && StringLeq(b, c)
    ensures StringLeq(a, c)
  {
    if a != "" && a[0] == b[0] == c[0] {
      StringLeqTransitive(a[1..], b[1..], c[1..]);
    }
  }

  // ---- character classes ----

  /** The strings part at position `k`, and `a` goes on with the smaller character or ends there. */
  predicate PartsBelow(a: string, b: string, k: nat) {
    k <= |a| && k < |b| && a[..k] == b[..k] && (k == |a| || a[k] < b[k])
  }

  lemma PartsAfterFirst(a: string, b: string, k: nat)
    requires PartsBelow(a, b, k) && k > 0
    ensures a[0] == b[0]
  {
    assert a[..k][0] == b[..k][0];
  }

  /** Byte order is decided where two strings first differ. */
  lemma {:induction false} LessAtDifference(a: string, b: string)
    ensures StringLess(a, b) <==> exists k: nat :: PartsBelow(a, b, k)
  {
    if a != "" && b != "" && a[0] == b[0] {
      LessAtDifference(a[1..], b[1..]);
      if k: nat :| PartsBelow(a[1..], b[1..], k) {
        assert a == [a[0]] + a[1..] && b == [b[0]] + b[1..];
        assert PartsBelow(a, b, k + 1);
      }
      if k: nat :| PartsBelow(a, b, k) {
        assert k > 0;
        assert a[..k][1..] == a[1..][..k - 1] && b[..k][1..] == b[1..][..k - 1];
        assert PartsBelow(a[1..], b[1..], k - 1);
      }
      assert a[1..] != b[1..] <==> a != b;
    } else {
      assert PartsBelow(a, b, 0) <==> StringLess(a, b);
      if k: nat :| PartsBelow(a, b, k) && k > 0 {
        PartsAfterFirst(a, b, k);
      }
    }
  }

  predicate IsDigit(c: char) { '0' <= c <= '9' }

  predicate IsUpper(c: char) { 'A' <= c <= 'Z' }

  predicate IsLetter(c: char) { IsUpper(c) || 'a' <= c <= 'z' }

  predicate IsLowerHex(c: char) { IsDigit(c) || 'a' <= c <= 'f' }

  /** ASCII white space, as `strings.TrimSpace` cuts it. */
  predicate IsSpace(c: char) { c == ' ' || 9 as char <= c <= 13 as char }

  predicate AllLowerHex(s: string) { forall c :: c in s ==> IsLowerHex(c) }

  /** `^[A-Za-z0-9][A-Za-z0-9._-]{0,127}$` */
  predicate CanonicalIdentifier(s: string) {
    && 1 <= |s| <= 128
    && (IsLetter(s[0]) || IsDigit(s[0]))
    && forall c :: c in s ==> IsLetter(c) || IsDigit(c) || c == '.' || c == '_' || c == '-'
  }

  /** `^[0-9a-f]{40}([0-9a-f]{24})?$` */
  predicate ObjectId(s: string) {
    (|s| == 40 || |s| == 64) && AllLowerHex(s)
  }

  /** `^[0-9a-f]{64}$` */
  predicate DigestValue(s: string) {
    |s| == 64 && AllLowerHex(s)
  }

  // ---- prefixes, suffixes, white space ----

  predicate HasPrefix(s: string, p: string) { p <= s }

  predicate HasSuffix(s: string, p: string) {
    |p| <= |s| && s[|s| - |p|..] == p
  }

  function TrimPrefix(s: string, p: string): string {
    if HasPrefix(s, p) then s[|p|..] else s
  }

  function TrimSuffix(s: string, p: string): string {
    if HasSuffix(s, p) then s[..|s| - |p|] else s
  }

  /** `strings.TrimSpace(s) == s` */
  predicate NoSurroundingSpace(s: string) {
    s != "" ==> !IsSpace(s[0]) && !IsSpace(s[|s| - 1])
  }

  /** `strings.TrimSpace(s) == ""` */
  predicate Blank(s: string) { forall c :: c in s ==> IsSpace(c) }

  function ToLowerChar(c: char): char {
    if IsUpper(c) then (c as int + 32) as char else c
  }

  function ToLower(s: string): (r: string)
    ensures |r| == |s|
    ensures forall i :: 0 <= i < |s| ==> r[i] == ToLowerChar(s[i])
  {
    if s == "" then "" else [ToLowerChar(s[0])] + ToLower(s[1..])
  }

  /** `strings.Contains` */
  predicate Contains(s: string, part: string) {
    exists i :: 0 <= i <= |s| - |part| && PartAt(s, part, i)
  }

  predicate PartAt(s: string, part: string, i: int) {
    0 <= i <= |s| - |part| && s[i..i + |part|] == part
  }

  /** The first index of `c`, or -1. */
  function IndexOf(s: string, c: char): (i: int)
    ensures -1 <= i < |s|
    ensures i >= 0 ==> s[i] == c && c !in s[..i]
    ensures i == -1 ==> c !in s
  {
    if s == "" then -1
    else if s[0] == c then 0
    else
      var i := IndexOf(s[1..], c);
      if i < 0 then -1 else
        assert s[..i + 1] == [s[0]] + s[1..][..i];
        i + 1
  }

  /** The last index of `c`, or -1. */
  function LastIndexOf(s: string, c: char): (i: int)
    ensures -1 <= i < |s|
    ensures i >= 0 ==> s[i] == c
    ensures forall k :: i < k < |s| ==> s[k] != c
  {
    if s == "" then -1
    else if s[|s| - 1] == c then |s| - 1
    else
      LastIndexOf(s[..|s| - 1], c)
  }

  lemma {:induction false} IndexOfFirst(a: string, c: char, x: string)
    requires c !in a
    ensures IndexOf(a + [c] + x, c) == |a|
  {
    if a != "" {
      IndexOfFirst(a[1..], c, x);
      assert (a + [c] + x)[1..] == a[1..] + [c] + x;
    }
  }

  /** The first separator splits a string in only one way. */
  lemma FirstSeparator(a: string, x: string, b: string, y: string, c: char)
    requires c !in a && c !in b
    requires a + [c] + x == b + [c] + y
    ensures a == b && x == y
  {
    IndexOfFirst(a, c, x);
    IndexOfFirst(b, c, y);
    assert (a + [c] + x)[..|a|] == a && (b + [c] + y)[..|b|] == b;
    assert (a + [c] + x)[|a| + 1..] == x && (b + [c] + y)[|b| + 1..] == y;
  }

  /** `strings.Join` */
  function Join(parts: seq<string>, separator: string): string {
    if parts == [] then ""
    else if |parts| == 1 then parts[0]
    else parts[0] + separator + Join(parts[1..], separator)
  }

  /** `strings.Split` on a one-character separator. */
  function Split(s: string, separator: char): (parts: seq<string>)
    ensures |parts| >= 1
    ensures Join(parts, [separator]) == s
    ensures forall part :: part in parts ==> separator !in part
    decreases |s|
  {
    var i := IndexOf(s, separator);
    if i < 0 then [s]
    else
      assert s == s[..i] + [separator] + s[i + 1..];
      [s[..i]] + Split(s[i + 1..], separator)
  }
}
