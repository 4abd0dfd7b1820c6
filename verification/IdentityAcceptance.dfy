/** Which texts each of the five grammars accepts, character by character, and as which identity. */
module IdentityAcceptance {
  import opened Identity
  import opened IdentityFixpoints
  import opened IdentityLaws
  import opened Seqs
  import opened Text

  // ---- cutting text ----

  /** `mark` is the character once, or nothing. */
  predicate AtMostOne(mark: string, c: char) { mark == "" || mark == [c] }

  lemma CutMark(body: string, c: char, mark: string)
    requires c !in body && AtMostOne(mark, c)
    ensures Cut(body + mark, c) == (body, "")
  {
    if mark == "" {
      assert body + mark == body;
      CutAbsent(body, c);
    } else {
      assert body + mark == body + [c] + "";
      CutFirst(body, c, "");
    }
  }

  lemma UncutMark(s: string, c: char) returns (mark: string)
    requires Cut(s, c).1 == ""
    ensures s == Cut(s, c).0 + mark && AtMostOne(mark, c) && c !in Cut(s, c).0
  {
    mark := s[|Cut(s, c).0|..];
  }

  // ---- URLs ----

  /**
   The parts of a URL text: a scheme in any case, the user it takes, a host, an
   empty port or none, a path, and empty query and fragment marks or none.
   */
  datatype Parts = Parts(
    transport: Transport, scheme: string, host: string, colon: string, path: string, query: string, fragment: string)

  /** The text between the scheme and the marks. */
  function Middle(u: Parts): string { "//" + ((UserOf(u.transport) + u.host + u.colon) + u.path) }

  function SpelledOut(u: Parts): string { u.scheme + ":" + Middle(u) + u.query + u.fragment }

  predicate PathShaped(path: string) {
    (path == "" || path[0] == '/') && forall c :: c in path ==> !IsControl(c) && c != '%' && c != '#' && c != '?'
  }

  /** Parts that the parser and the checks behind it let through. */
  ghost predicate WellFormed(u: Parts) {
    && !u.transport.Scp? && ToLower(u.scheme) == SchemeOf(u.transport)
    && HostOk(u.host) && (forall c :: c in u.host ==> HostChar(c)) && AtMostOne(u.colon, ':')
    && PathShaped(u.path) && PathOk(TrimmedPath(u.path))
    && AtMostOne(u.query, '?') && AtMostOne(u.fragment, '#')
    && (u.query == "" && u.fragment == "" ==> !HasSuffix(u.path, " "))
  }

  lemma LetterLowered(c: char)
    ensures IsLetter(ToLowerChar(c)) <==> IsLetter(c)
  {
  }

  lemma SchemeLetters(scheme: string, t: Transport)
    requires !t.Scp? && ToLower(scheme) == SchemeOf(t)
    ensures scheme != "" && forall c :: c in scheme ==> IsLetter(c)
  {
    forall i | 0 <= i < |scheme| ensures IsLetter(scheme[i]) {
      assert ToLower(scheme)[i] == SchemeOf(t)[i];
      LetterLowered(scheme[i]);
    }
  }

  lemma AnyCaseScheme(scheme: string, t: Transport, rest: string)
    requires !t.Scp? && ToLower(scheme) == SchemeOf(t)
    ensures SplitScheme(scheme + ":" + rest) == Some((SchemeOf(t), rest))
  {
    SchemeLetters(scheme, t);
    assert !IsLetter(':');
    var s := scheme + ":" + rest;
    IndexOfFirst(scheme, ':', rest);
    assert s[..|scheme|] == scheme && s[|scheme| + 1..] == rest && scheme[0] in scheme;
  }

  lemma GitUser()
    ensures ReadUser("git") == Named("git") && forall c :: c in "git" ==> UserChar(c)
  {
  }

  /** Host and port without a user. */
  lemma AuthorityAlone(tail: string)
    requires '@' !in tail
    requires (forall c :: c in Cut(tail, ':').0 ==> HostChar(c)) && Cut(tail, ':').1 == ""
    ensures ParseAuthority(tail) == Some((NoUser, Cut(tail, ':').0, ""))
  {
    assert LastIndexOf(tail, '@') == -1;
    assert tail[-1 + 1..] == tail;
  }

  lemma AuthorityAt(authority: string, at: nat, tail: string)
    requires at == LastIndexOf(authority, '@') && authority[at + 1..] == tail && authority[..at] == "git"
    requires (forall c :: c in Cut(tail, ':').0 ==> HostChar(c)) && Cut(tail, ':').1 == ""
    ensures ParseAuthority(authority) == Some((Named("git"), Cut(tail, ':').0, ""))
  {
    GitUser();
  }

  /** Host and port after the user `git`. */
  lemma AuthorityGit(tail: string)
    requires '@' !in tail
    requires (forall c :: c in Cut(tail, ':').0 ==> HostChar(c)) && Cut(tail, ':').1 == ""
    ensures ParseAuthority("git@" + tail) == Some((Named("git"), Cut(tail, ':').0, ""))
  {
    LastIndexOfHost("git@", tail);
    assert ("git@" + tail)[4..] == tail && ("git@" + tail)[..3] == "git";
    AuthorityAt("git@" + tail, 3, tail);
  }

  lemma HostTail(user: string, host: string, colon: string) returns (tail: string)
    requires HostOk(host) && AtMostOne(colon, ':') && forall c :: c in host ==> HostChar(c)
    ensures user + host + colon == user + tail && '@' !in tail && Cut(tail, ':') == (host, "")
  {
    assert HostBreak('@') && !HostChar(':');
    CutMark(host, ':', colon);
    tail := host + colon;
  }

  lemma AuthorityReads(user: string, host: string, colon: string)
    requires (user == "" || user == "git@") && HostOk(host) && AtMostOne(colon, ':')
    requires forall c :: c in host ==> HostChar(c)
    ensures ParseAuthority(user + host + colon) == Some((if user == "" then NoUser else Named("git"), host, ""))
  {
    var tail := HostTail(user, host, colon);
    if user == "" {
      AuthorityAlone(tail);
      assert user + tail == tail;
    } else {
      AuthorityGit(tail);
    }
  }

  lemma AuthorityEnds(authority: string, path: string)
    requires '/' !in authority && (path == "" || path[0] == '/')
    ensures SplitAuthority(authority + path) == (authority, path)
  {
    if path == "" {
      assert authority + path == authority;
    } else {
      assert authority + path == authority + "/" + path[1..];
      IndexOfFirst(authority, '/', path[1..]);
      assert (authority + path)[..|authority|] == authority && (authority + path)[|authority|..] == path;
    }
  }

  function AuthorityOf(u: Parts): string { UserOf(u.transport) + u.host + u.colon }

  lemma AuthoritySlashless(u: Parts)
    requires WellFormed(u)
    ensures '/' !in AuthorityOf(u)
  {
    assert HostBreak('/');
  }

  lemma ReferenceSplits(reference: string, authority: string, path: string, user: User, host: string, port: string)
    requires HasPrefix(reference, "//") && SplitAuthority(reference[2..]) == (authority, path)
    requires ParseAuthority(authority) == Some((user, host, port))
    ensures ParseReference(reference) == Some((user, host, port, path))
  {
  }

  lemma DoubleSlash(rest: string)
    ensures HasPrefix("//" + rest, "//") && ("//" + rest)[2..] == rest
  {
  }

  lemma MiddleReads(u: Parts)
    requires WellFormed(u)
    ensures ParseReference(Middle(u))
         == Some((if u.transport.Ssh? then Named("git") else NoUser, u.host, "", u.path))
  {
    AuthoritySlashless(u);
    AuthorityReads(UserOf(u.transport), u.host, u.colon);
    AuthorityEnds(AuthorityOf(u), u.path);
    DoubleSlash(AuthorityOf(u) + u.path);
    ReferenceSplits(Middle(u), AuthorityOf(u), u.path, if u.transport.Ssh? then Named("git") else NoUser, u.host, "");
  }

  predicate Harmless(c: char) { c != '#' && c != '?' && c != '%' && !IsControl(c) }

  lemma HostHarmless(c: char)
    ensures HostChar(c) || IsLetter(c) || c == ':' || c == '/' || c == '@' ==> Harmless(c)
  {
  }

  lemma BodyHarmless(u: Parts)
    requires WellFormed(u)
    ensures forall c :: c in u.scheme + ":" + Middle(u) ==> Harmless(c)
  {
    SchemeLetters(u.scheme, u.transport);
    forall c | c in u.scheme + ":" + Middle(u) ensures Harmless(c) {
      HostHarmless(c);
      assert c in u.scheme || c == ':' || c == '/' || c in UserOf(u.transport) || c in u.host || c in u.path;
      assert c in UserOf(u.transport) ==> IsLetter(c) || c == '@';
    }
  }

  lemma SpelledParses(u: Parts)
    requires WellFormed(u)
    ensures ParseUrl(SpelledOut(u))
         == Some(Url(SchemeOf(u.transport), if u.transport.Ssh? then Named("git") else NoUser,
                     u.host, "", u.path, "", ""))
  {
    BodyHarmless(u);
    QueryMark(u);
    var body := u.scheme + ":" + Middle(u);
    CutMark(body + u.query, '#', u.fragment);
    AnyCaseScheme(u.scheme, u.transport, Middle(u) + u.query);
    CutMark(Middle(u), '?', u.query);
    MiddleReads(u);
  }

  lemma QueryMark(u: Parts)
    requires AtMostOne(u.query, '?') && forall c :: c in u.scheme + ":" + Middle(u) ==> Harmless(c)
    ensures var text := u.scheme + ":" + Middle(u) + u.query; (
      && '#' !in text && (forall c :: c in text ==> !IsControl(c)) && '?' !in Middle(u)
      && text == u.scheme + ":" + (Middle(u) + u.query))
  {
    var body := u.scheme + ":" + Middle(u);
    assert !Harmless('#') && !Harmless('?');
    assert forall c :: c in body + u.query ==> c in body || c == '?';
    assert forall c :: c in Middle(u) ==> c in body;
  }

  /** The last character of the text is no space. */
  predicate EndsPlainly(s: string) { s != "" && !IsSpace(s[|s| - 1]) }

  lemma MarkedEnds(text: string, mark: string)
    requires mark == "?" || mark == "#"
    ensures EndsPlainly(text + mark)
  {
  }

  lemma AppendedEnds(text: string, path: string)
    requires path != "" && !IsSpace(path[|path| - 1])
    ensures EndsPlainly(text + path)
  {
  }

  lemma PathLast(u: Parts)
    requires WellFormed(u) && u.query == "" && u.fragment == ""
    ensures u.path != "" && !IsSpace(u.path[|u.path| - 1])
  {
    var last := u.path[|u.path| - 1];
    assert u.path[|u.path| - 1..] == [last] && last in u.path && !IsControl(last);
  }

  lemma LastOfFragment(u: Parts)
    requires AtMostOne(u.fragment, '#') && u.fragment != ""
    ensures EndsPlainly(SpelledOut(u))
  {
    MarkedEnds(u.scheme + ":" + Middle(u) + u.query, u.fragment);
  }

  lemma LastOfQuery(u: Parts)
    requires AtMostOne(u.query, '?') && u.query != "" && u.fragment == ""
    ensures EndsPlainly(SpelledOut(u))
  {
    var body := u.scheme + ":" + Middle(u);
    MarkedEnds(body, u.query);
    NoMark(body + u.query);
  }

  lemma NoMark(s: string)
    ensures s + "" == s
  {
  }

  lemma PathAtEnd(u: Parts)
    requires u.query == "" && u.fragment == ""
    ensures SpelledOut(u) == u.scheme + ":" + ("//" + AuthorityOf(u)) + u.path
  {
    NoMark(u.scheme + ":" + Middle(u));
    assert Middle(u) == "//" + AuthorityOf(u) + u.path;
  }

  lemma SpelledLast(u: Parts)
    requires WellFormed(u)
    ensures EndsPlainly(SpelledOut(u))
  {
    if u.fragment != "" {
      LastOfFragment(u);
    } else if u.query != "" {
      LastOfQuery(u);
    } else {
      PathLast(u);
      AppendedEnds(u.scheme + ":" + ("//" + AuthorityOf(u)), u.path);
      PathAtEnd(u);
    }
  }

  lemma SpelledEnds(u: Parts)
    requires WellFormed(u)
    ensures NoSurroundingSpace(SpelledOut(u))
  {
    SpelledLast(u);
    SchemeLetters(u.scheme, u.transport);
    assert SpelledOut(u)[0] == u.scheme[0] && u.scheme[0] in u.scheme;
  }

  lemma SpelledPlain(u: Parts)
    requires WellFormed(u)
    ensures '%' !in SpelledOut(u) && forall c :: c in SpelledOut(u) ==> !LineBreak(c)
  {
    BodyHarmless(u);
    assert forall c :: c in SpelledOut(u) ==> c in u.scheme + ":" + Middle(u) || c == '?' || c == '#';
    assert !Harmless('%') && forall c :: LineBreak(c) ==> !Harmless(c);
  }

  lemma SchemeStart(scheme: string, t: Transport)
    requires !t.Scp? && ToLower(scheme) == SchemeOf(t)
    ensures |scheme| == |SchemeOf(t)| && |scheme| >= 3 && scheme[0] != 'l'
    ensures |scheme| > 3 ==> scheme[3] != '+'
  {
    SchemeLetters(scheme, t);
    assert ToLower(scheme)[0] == ToLowerChar(scheme[0]) && SchemeOf(t)[0] != 'l';
    assert |scheme| > 3 ==> scheme[3] in scheme && !IsLetter('+');
  }

  lemma SpelledUnprefixed(scheme: string, t: Transport, rest: string)
    requires !t.Scp? && ToLower(scheme) == SchemeOf(t)
    ensures var raw := scheme + ":" + rest; !HasPrefix(raw, LOCAL_PREFIX) && !HasPrefix(raw, SCP_SCHEME)
  {
    var raw := scheme + ":" + rest;
    SchemeStart(scheme, t);
    assert raw[0] == scheme[0] && LOCAL_PREFIX[0] == 'l' && SCP_SCHEME[3] == '+';
    assert |scheme| > 3 ==> raw[3] == scheme[3];
    assert |scheme| == 3 ==> raw[3] == ':';
  }

  lemma ContainsScheme(scheme: string, rest: string)
    ensures Contains(scheme + ":" + ("//" + rest), "://")
  {
    assert PartAt(scheme + ":" + ("//" + rest), "://", |scheme|);
  }

  /** What follows the two slashes. */
  function AfterSlashes(u: Parts): string { (AuthorityOf(u) + u.path) + u.query + u.fragment }

  lemma SpelledFrom(u: Parts)
    ensures SpelledOut(u) == u.scheme + ":" + ("//" + AfterSlashes(u))
  {
  }

  lemma SpelledSchemed(u: Parts)
    requires WellFormed(u)
    ensures !HasPrefix(SpelledOut(u), LOCAL_PREFIX) && !HasPrefix(SpelledOut(u), SCP_SCHEME)
    ensures Contains(SpelledOut(u), "://") && SpelledOut(u) != ""
  {
    SpelledFrom(u);
    SpelledUnprefixed(u.scheme, u.transport, "//" + AfterSlashes(u));
    ContainsScheme(u.scheme, AfterSlashes(u));
  }

  /** Such parts, spelled out, are accepted as the class of their host and path. */
  lemma WellFormedAccepted(u: Parts)
    requires WellFormed(u)
    ensures Canonicalize(SpelledOut(u)) == Some(Render(Class(Remote(Some(u.transport), u.host, u.path))))
  {
    SpelledSchemed(u);
    SpelledPlain(u);
    SpelledParses(u);
    SpelledEnds(u);
    UriOfUrl(SpelledOut(u));
    UrlForm(u.transport, u.host, u.path);
    SpelledClass(u.transport, u.host, u.path);
  }

  // ---- taking an accepted URL apart ----

  lemma ParseSteps(raw: string, scheme: string, rest: string)
    requires ParseUrl(raw).Some? && SplitScheme(Cut(raw, '#').0) == Some((scheme, rest))
    ensures var url := ParseUrl(raw).value; (
      && url.scheme == scheme && url.fragment == Cut(raw, '#').1 && url.query == Cut(rest, '?').1
      && ParseReference(Cut(rest, '?').0) == Some((url.user, url.host, url.port, url.path)))
    ensures forall c :: c in Cut(raw, '#').0 ==> !IsControl(c)
  {
  }

  lemma ParsedScheme(raw: string)
    requires ParseUrl(raw).Some?
    ensures SplitScheme(Cut(raw, '#').0).Some? && ParseUrl(raw).value.scheme == SplitScheme(Cut(raw, '#').0).value.0
  {
  }

  lemma SchemeBack(text: string) returns (scheme: string, rest: string)
    requires SplitScheme(text).Some? && SplitScheme(text).value.0 != ""
    ensures text == scheme + ":" + rest && SplitScheme(text) == Some((ToLower(scheme), rest))
  {
    scheme := text[..IndexOf(text, ':')];
    rest := text[IndexOf(text, ':') + 1..];
  }

  /** A parsed URL without query and fragment, up to the middle. */
  lemma ParsedText(raw: string) returns (scheme: string, middle: string, query: string, fragment: string)
    requires ParseUrl(raw).Some? && ParseUrl(raw).value.scheme != ""
    requires ParseUrl(raw).value.query == "" && ParseUrl(raw).value.fragment == ""
    ensures raw == scheme + ":" + middle + query + fragment && AtMostOne(query, '?') && AtMostOne(fragment, '#')
    ensures '#' !in middle && '?' !in middle && forall c :: c in middle ==> !IsControl(c)
    ensures ParseUrl(raw).value.scheme == ToLower(scheme)
    ensures var url := ParseUrl(raw).value; ParseReference(middle) == Some((url.user, url.host, url.port, url.path))
  {
    ParsedScheme(raw);
    var rest;
    scheme, rest := SchemeBack(Cut(raw, '#').0);
    ParseSteps(raw, ToLower(scheme), rest);
    fragment := UncutMark(raw, '#');
    query := UncutMark(rest, '?');
    middle := Cut(rest, '?').0;
    MiddleWithin(Cut(raw, '#').0, scheme, rest, middle, query);
  }

  lemma MiddleWithin(text: string, scheme: string, rest: string, middle: string, query: string)
    requires text == scheme + ":" + rest && rest == middle + query
    ensures text == scheme + ":" + middle + query && forall c :: c in middle ==> c in text
  {
  }

  lemma SplitBack(text: string)
    ensures text == SplitAuthority(text).0 + SplitAuthority(text).1
    ensures SplitAuthority(text).1 == "" || SplitAuthority(text).1[0] == '/'
  {
  }

  lemma SlashesOff(reference: string)
    requires HasPrefix(reference, "//")
    ensures reference == "//" + reference[2..]
  {
  }

  lemma ReferenceSteps(reference: string, authority: string, path: string)
    requires ParseReference(reference).Some? && ParseReference(reference).value.1 != ""
    requires HasPrefix(reference, "//") ==> (authority, path) == SplitAuthority(reference[2..])
    ensures HasPrefix(reference, "//")
    ensures var (user, host, port, path') := ParseReference(reference).value;
      ParseAuthority(authority) == Some((user, host, port)) && path' == path
  {
  }

  lemma ParsedReference(reference: string) returns (authority: string)
    requires ParseReference(reference).Some? && ParseReference(reference).value.1 != ""
    ensures var (user, host, port, path) := ParseReference(reference).value;
      && reference == "//" + (authority + path) && (path == "" || path[0] == '/')
      && ParseAuthority(authority) == Some((user, host, port))
  {
    var text := if HasPrefix(reference, "//") then reference[2..] else "";
    authority := SplitAuthority(text).0;
    ReferenceSteps(reference, authority, SplitAuthority(text).1);
    SlashesOff(reference);
    SplitBack(text);
  }

  lemma AuthoritySteps(authority: string, at: int, tail: string)
    requires ParseAuthority(authority).Some? && at == LastIndexOf(authority, '@') && tail == authority[at + 1..]
    ensures var (user, host, port) := ParseAuthority(authority).value; (
      && (host, port) == Cut(tail, ':') && (forall c :: c in host ==> HostChar(c))
      && user == if at < 0 then NoUser else ReadUser(authority[..at]))
  {
  }

  lemma UserBack(authority: string, at: int)
    requires at == LastIndexOf(authority, '@')
    ensures authority == (if at < 0 then "" else authority[..at] + "@") + authority[at + 1..]
  {
  }

  lemma NamedGit(info: string)
    ensures ReadUser(info) != NoUser && (ReadUser(info) == Named("git") ==> info == "git")
  {
  }

  /** The user text, up to its `@`, and the rest of the authority. */
  lemma AuthorityBack(authority: string) returns (user: string, tail: string)
    requires ParseAuthority(authority).Some?
    requires ParseAuthority(authority).value.0 == NoUser || ParseAuthority(authority).value.0 == Named("git")
    ensures authority == user + tail
    ensures user == if ParseAuthority(authority).value.0 == NoUser then "" else "git@"
    ensures Cut(tail, ':') == (ParseAuthority(authority).value.1, ParseAuthority(authority).value.2)
    ensures forall c :: c in Cut(tail, ':').0 ==> HostChar(c)
  {
    var at := LastIndexOf(authority, '@');
    tail := authority[at + 1..];
    AuthoritySteps(authority, at, tail);
    UserBack(authority, at);
    if at < 0 {
      user := "";
    } else {
      NamedGit(authority[..at]);
      user := "git@";
    }
  }

  lemma ParsedAuthority(authority: string) returns (user: string, colon: string)
    requires ParseAuthority(authority).Some? && ParseAuthority(authority).value.2 == ""
    requires ParseAuthority(authority).value.0 == NoUser || ParseAuthority(authority).value.0 == Named("git")
    ensures authority == user + ParseAuthority(authority).value.1 + colon && AtMostOne(colon, ':')
    ensures user == if ParseAuthority(authority).value.0 == NoUser then "" else "git@"
    ensures forall c :: c in ParseAuthority(authority).value.1 ==> HostChar(c)
  {
    var tail;
    user, tail := AuthorityBack(authority);
    colon := UncutMark(tail, ':');
    Rejoined(user, tail, Cut(tail, ':').0, colon);
  }

  lemma Rejoined(user: string, tail: string, host: string, colon: string)
    requires tail == host + colon
    ensures user + tail == user + host + colon
  {
  }

  /** What an accepted URL's parsed fields must be. */
  lemma AcceptedFields(url: Url)
    requires CanonicalizeUrl(url).Some?
    ensures url.query == "" && url.fragment == "" && url.port == "" && url.host != ""
    ensures UrlTransport(url.scheme).Some? && HostPath(url.host, url.path).Some?
    ensures url.user == if url.scheme == "ssh" then Named("git") else NoUser
  {
  }

  lemma TransportScheme(scheme: string)
    requires UrlTransport(scheme).Some?
    ensures !UrlTransport(scheme).value.Scp? && SchemeOf(UrlTransport(scheme).value) == scheme
    ensures UrlTransport(scheme).value.Ssh? <==> scheme == "ssh"
  {
  }

  /** The parts of a middle that parses with an allowed user and no port. */
  lemma MiddleParts(middle: string, user: User, host: string, path: string) returns (colon: string)
    requires ParseReference(middle) == Some((user, host, "", path)) && host != ""
    requires user == NoUser || user == Named("git")
    ensures middle == "//" + (((if user == NoUser then "" else "git@") + host + colon) + path)
    ensures AtMostOne(colon, ':') && (path == "" || path[0] == '/') && forall c :: c in host ==> HostChar(c)
  {
    var authority := ParsedReference(middle);
    var prefix;
    prefix, colon := ParsedAuthority(authority);
  }

  /** An accepted URL is its parts, spelled out. */
  lemma AcceptedParts(raw: string) returns (u: Parts)
    requires !HasPrefix(raw, LOCAL_PREFIX) && !HasPrefix(raw, SCP_SCHEME) && Contains(raw, "://")
    requires Canonicalize(raw).Some?
    ensures raw == SpelledOut(u) && WellFormed(u)
  {
    UrlRead(raw);
    var url := ParseUrl(raw).value;
    AcceptedFields(url);
    TransportScheme(url.scheme);
    var scheme, middle, query, fragment := ParsedText(raw);
    var colon := MiddleParts(middle, url.user, url.host, url.path);
    u := Parts(UrlTransport(url.scheme).value, scheme, url.host, colon, url.path, query, fragment);
    assert Middle(u) == middle;
    AcceptedTrimmed(raw);
    PartsWellFormed(raw, u);
  }

  lemma PartsWellFormed(raw: string, u: Parts)
    requires raw == SpelledOut(u) && !u.transport.Scp? && ToLower(u.scheme) == SchemeOf(u.transport)
    requires HostPath(u.host, u.path).Some? && (forall c :: c in u.host ==> HostChar(c))
    requires AtMostOne(u.colon, ':') && AtMostOne(u.query, '?') && AtMostOne(u.fragment, '#')
    requires (u.path == "" || u.path[0] == '/') && '#' !in Middle(u) && '?' !in Middle(u)
    requires forall c :: c in Middle(u) ==> !IsControl(c)
    requires '%' !in raw && NoSurroundingSpace(raw)
    ensures WellFormed(u)
  {
    PathWithin(u);
    if u.query == "" && u.fragment == "" && HasSuffix(u.path, " ") {
      PathEnds(u);
    }
  }

  lemma PathWithin(u: Parts)
    ensures forall c :: c in u.path ==> c in Middle(u) && c in SpelledOut(u)
  {
    assert forall c :: c in Middle(u) ==> c in SpelledOut(u);
  }

  lemma PathEnds(u: Parts)
    requires u.query == "" && u.fragment == "" && HasSuffix(u.path, " ")
    ensures !NoSurroundingSpace(SpelledOut(u))
  {
    var raw := SpelledOut(u);
    assert raw[|raw| - 1] == u.path[|u.path| - 1] == ' ';
  }

  /** An accepted URL text has no surrounding space. */
  lemma AcceptedTrimmed(raw: string)
    requires !HasPrefix(raw, LOCAL_PREFIX) && !HasPrefix(raw, SCP_SCHEME) && Contains(raw, "://")
    requires Canonicalize(raw).Some?
    ensures NoSurroundingSpace(raw)
  {
  }

  // ---- acceptable parts, by their characters ----

  predicate PlainHostChar(c: char) {
    || 'a' <= c <= 'z' || 'A' <= c <= 'Z' || '0' <= c <= '9' || c == '-' || c == '_' || c == '.' || c == '~' || c == '!'
    || c == '$' || c == '&' || c == '\'' || c == '(' || c == ')' || c == '*' || c == '+' || c == ',' || c == ';'
    || c == '=' || c == '<' || c == '>' || c == '"'
  }

  /** A path starts with a slash, and holds no control character, percent sign or mark. */
  predicate PlainPath(path: string) {
    && path != "" && path[0] == '/'
    && forall c :: c in path ==> ' ' <= c && c as int != 127 && c != '%' && c != '?' && c != '#'
  }

  /**
   Parts that make an acceptable URL: http, https or ssh in any case, a host of
   registered-name characters, a path that trims to an unambiguous one, and no
   space at the end of the text.
   */
  ghost predicate Acceptable(u: Parts) {
    && !u.transport.Scp? && ToLower(u.scheme) == SchemeOf(u.transport)
    && u.host != "" && (forall c :: c in u.host ==> PlainHostChar(c)) && AtMostOne(u.colon, ':')
    && PlainPath(u.path) && PathOk(TrimmedPath(u.path))
    && AtMostOne(u.query, '?') && AtMostOne(u.fragment, '#')
    && (u.query == "" && u.fragment == "" ==> u.path[|u.path| - 1] != ' ')
  }

  lemma HostCharExactly(c: char)
    ensures HostChar(c) <==> PlainHostChar(c)
    ensures PlainHostChar(c) ==> !HostBreak(c) && !IsSpace(c)
  {
  }

  lemma UrlHostExactly(host: string)
    ensures HostOk(host) && (forall c :: c in host ==> HostChar(c)) <==>
      host != "" && forall c :: c in host ==> PlainHostChar(c)
  {
    forall c ensures (HostChar(c) <==> PlainHostChar(c)) && (PlainHostChar(c) ==> !HostBreak(c) && !IsSpace(c)) {
      HostCharExactly(c);
    }
    if host != "" {
      assert host[0] in host && host[|host| - 1] in host;
    }
  }

  lemma PathsAlike(path: string)
    requires PathOk(TrimmedPath(path))
    ensures PathShaped(path) <==> PlainPath(path)
    ensures path != "" ==> (HasSuffix(path, " ") <==> path[|path| - 1] == ' ')
  {
    assert forall c :: IsControl(c) <==> !(' ' <= c && c as int != 127);
    if path != "" {
      assert path[|path| - 1..] == [path[|path| - 1]];
    }
  }

  lemma AcceptableExactly(u: Parts)
    ensures Acceptable(u) <==> WellFormed(u)
  {
    UrlHostExactly(u.host);
    if PathOk(TrimmedPath(u.path)) {
      PathsAlike(u.path);
    }
  }

  /**
   A text with `://` is accepted exactly when it spells out acceptable parts: no
   port, query or fragment, no user on http and https and just `git` on ssh, a
   bare host and an unambiguous path. Its identity is that of its transport,
   host and path.
   */
  lemma UrlAcceptedExactly(raw: string)
    requires !HasPrefix(raw, LOCAL_PREFIX) && !HasPrefix(raw, SCP_SCHEME) && Contains(raw, "://")
    ensures Canonicalize(raw).Some? <==> exists u :: Acceptable(u) && SpelledOut(u) == raw
    ensures forall u :: Acceptable(u) && SpelledOut(u) == raw ==>
      Canonicalize(raw) == Some(Render(Class(Remote(Some(u.transport), u.host, u.path))))
  {
    if Canonicalize(raw).Some? {
      var u := AcceptedParts(raw);
      AcceptableExactly(u);
    }
    forall u | Acceptable(u) && SpelledOut(u) == raw
      ensures Canonicalize(raw) == Some(Render(Class(Remote(Some(u.transport), u.host, u.path))))
    {
      AcceptableExactly(u);
      WellFormedAccepted(u);
    }
  }

  // ---- URL texts that are refused ----

  /** No port, no user on http and https, and no user but `git` on ssh. */
  ghost predicate GoodAuthority(t: Transport, authority: string) {
    && (forall i :: 0 <= i < |authority| - 1 ==> authority[i] != ':')
    && (if t.Ssh? then HasPrefix(authority, "git@") && '@' !in authority[4..] else '@' !in authority)
  }

  /** A mark at position `i` ends the text, or is a `?` before the `#` that does. */
  predicate MarkOk(tail: string, i: nat)
    requires i < |tail|
  {
    && (tail[i] == '#' ==> i == |tail| - 1)
    && (tail[i] == '?' ==> i == |tail| - 1 || (i == |tail| - 2 && tail[i + 1] == '#'))
  }

  /** No query and no fragment. */
  ghost predicate GoodTail(tail: string) {
    forall i :: 0 <= i < |tail| ==> MarkOk(tail, i)
  }

  function UrlOf(t: Transport, authority: string, tail: string): string
    requires !t.Scp?
  {
    SchemeOf(t) + ":" + ("//" + (authority + "/" + tail))
  }

  lemma HostPlain(u: Parts)
    requires WellFormed(u)
    ensures ':' !in u.host && '@' !in u.host && '/' !in u.host
  {
    assert HostBreak('@') && HostBreak('/') && !HostChar(':');
  }

  lemma ColonLast(user: string, host: string, colon: string)
    requires ':' !in user && ':' !in host && AtMostOne(colon, ':')
    ensures var a := user + host + colon; forall i :: 0 <= i < |a| - 1 ==> a[i] != ':'
  {
    var a := user + host + colon;
    forall i | 0 <= i < |a| - 1 ensures a[i] != ':' {
      assert a[i] == (user + host)[i];
      assert (user + host)[i] in user || (user + host)[i] in host;
    }
  }

  lemma UserPlaced(t: Transport, tail: string)
    requires '@' !in tail
    ensures var a := UserOf(t) + tail;
      if t.Ssh? then HasPrefix(a, "git@") && '@' !in a[4..] else '@' !in a
  {
    var a := UserOf(t) + tail;
    if t.Ssh? {
      assert a[..4] == "git@" && a[4..] == tail;
    } else {
      assert a == tail;
    }
  }

  lemma AuthorityGood(u: Parts)
    requires WellFormed(u)
    ensures GoodAuthority(u.transport, AuthorityOf(u))
  {
    HostPlain(u);
    assert ':' !in UserOf(u.transport);
    ColonLast(UserOf(u.transport), u.host, u.colon);
    UserPlaced(u.transport, u.host + u.colon);
    assert AuthorityOf(u) == UserOf(u.transport) + (u.host + u.colon);
  }

  lemma TailGood(u: Parts, tail: string)
    requires WellFormed(u) && "/" + tail == u.path + u.query + u.fragment
    ensures GoodTail(tail)
  {
    var marks := u.query + u.fragment;
    assert "/" + tail == u.path + marks;
    PathPresent(u);
    TailMarks(u.path, tail, marks);
  }

  /** The marks themselves, from some position of theirs on. */
  lemma MarksGood(marks: string, k: nat)
    requires k < |marks| && (marks == "?" || marks == "#" || marks == "?#")
    ensures marks[k] == '#' ==> k == |marks| - 1
    ensures marks[k] == '?' ==> k == |marks| - 1 || (k == |marks| - 2 && marks[k + 1] == '#')
  {
  }

  lemma TailMarks(path: string, tail: string, marks: string)
    requires path != "" && (forall c :: c in path ==> c != '#' && c != '?')
    requires marks == "" || marks == "?" || marks == "#" || marks == "?#"
    requires "/" + tail == path + marks
    ensures GoodTail(tail)
  {
    var all := "/" + tail;
    assert |tail| + 1 == |path| + |marks|;
    forall i | 0 <= i < |tail| ensures MarkOk(tail, i) {
      assert tail[i] == all[i + 1];
      if i + 1 < |path| {
        assert all[i + 1] == path[i + 1] && path[i + 1] in path;
      } else {
        var k := i + 1 - |path|;
        assert all[i + 1] == marks[k];
        MarksGood(marks, k);
        assert i + 1 < |tail| ==> tail[i + 1] == all[i + 2] == marks[k + 1];
      }
    }
  }

  lemma SchemeUnique(a: string, x: string, b: string, y: string)
    requires ':' !in a && ':' !in b && a + ":" + x == b + ":" + y
    ensures a == b && x == y
  {
    FirstSeparator(a, x, b, y, ':');
  }

  lemma AuthorityUnique(authority: string, tail: string, authority': string, path: string, marks: string)
    requires '/' !in authority && '/' !in authority' && path != "" && path[0] == '/'
    requires authority + "/" + tail == authority' + path + marks
    ensures authority == authority' && "/" + tail == path + marks
  {
    assert authority' + path + marks == authority' + "/" + (path[1..] + marks);
    FirstSeparator(authority, tail, authority', path[1..] + marks, '/');
  }

  lemma PathPresent(u: Parts)
    requires WellFormed(u)
    ensures u.path != "" && u.path[0] == '/'
  {
  }

  lemma UrlTakenApart(t: Transport, authority: string, tail: string, u: Parts)
    requires !t.Scp? && '/' !in authority && WellFormed(u) && SpelledOut(u) == UrlOf(t, authority, tail)
    ensures u.transport == t && AuthorityOf(u) == authority && "/" + tail == u.path + u.query + u.fragment
  {
    SchemeLetters(u.scheme, u.transport);
    SchemeIsPlain(t);
    assert !IsLetter(':');
    SpelledFrom(u);
    SchemeUnique(u.scheme, "//" + AfterSlashes(u), SchemeOf(t), "//" + (authority + "/" + tail));
    SlashesUnique(AfterSlashes(u), authority + "/" + tail);
    AuthoritySlashless(u);
    PathPresent(u);
    MarksGrouped(u);
    AuthorityUnique(authority, tail, AuthorityOf(u), u.path, u.query + u.fragment);
    SameTransport(t, u.transport);
  }

  lemma SlashesUnique(a: string, b: string)
    requires "//" + a == "//" + b
    ensures a == b
  {
    assert ("//" + a)[2..] == a && ("//" + b)[2..] == b;
  }

  lemma MarksGrouped(u: Parts)
    ensures AfterSlashes(u) == AuthorityOf(u) + u.path + (u.query + u.fragment)
    ensures u.path + (u.query + u.fragment) == u.path + u.query + u.fragment
  {
  }

  lemma SameTransport(t: Transport, t': Transport)
    requires !t.Scp? && !t'.Scp? && SchemeOf(t) == SchemeOf(t')
    ensures t == t'
  {
    assert |SchemeOf(Http)| == 4 && |SchemeOf(Https)| == 5 && |SchemeOf(Ssh)| == 3;
  }

  /**
   A URL with a port, a query or a fragment is refused, whatever they hold; so
   is one with a user on http and https, and on ssh any without just `git`.
   */
  lemma UrlRefused(t: Transport, authority: string, tail: string)
    requires !t.Scp? && '/' !in authority && (!GoodAuthority(t, authority) || !GoodTail(tail))
    ensures Canonicalize(UrlOf(t, authority, tail)).None?
  {
    var raw := UrlOf(t, authority, tail);
    SchemeIsPlain(t);
    LowerScheme(t);
    SpelledUnprefixed(SchemeOf(t), t, "//" + (authority + "/" + tail));
    ContainsScheme(SchemeOf(t), authority + "/" + tail);
    if Canonicalize(raw).Some? {
      var u := AcceptedParts(raw);
      UrlTakenApart(t, authority, tail, u);
      AuthorityGood(u);
      TailGood(u, tail);
    }
  }

  lemma LowerScheme(t: Transport)
    requires !t.Scp?
    ensures ToLower(SchemeOf(t)) == SchemeOf(t)
  {
    SchemeIsPlain(t);
  }

  /** In particular no URL with a port is accepted. */
  lemma PortRefused(t: Transport, host: string, port: string, tail: string)
    requires !t.Scp? && '/' !in host && '/' !in port && port != ""
    ensures Canonicalize(UrlOf(t, UserOf(t) + host + ":" + port, tail)).None?
  {
    var authority := UserOf(t) + host + ":" + port;
    assert authority[|UserOf(t) + host|] == ':';
    UrlRefused(t, authority, tail);
  }

  // ---- the other grammars ----

  function ScpOf(host: string, path: string): string { "git" + "@" + (host + ":" + path) }

  lemma ScpTaken(raw: string) returns (host: string, path: string)
    requires CanonicalizeScpLike(raw).Some?
    ensures raw == ScpOf(host, path) && ':' !in host
  {
    var at := IndexOf(raw, '@');
    var rest := raw[at + 1..];
    var colon := IndexOf(rest, ':');
    host, path := rest[..colon], rest[colon + 1..];
    assert rest == host + ":" + path;
    assert raw == raw[..at] + "@" + rest;
  }

  /**
   A text with `@` but no `://` is accepted exactly when it is `git@host:path`
   of an acceptable host and path; no other user is.
   */
  lemma ScpAcceptedExactly(raw: string)
    requires !HasPrefix(raw, LOCAL_PREFIX) && !HasPrefix(raw, SCP_SCHEME) && !Contains(raw, "://") && '@' in raw
    ensures Canonicalize(raw).Some? <==>
      exists host, path :: ':' !in host && raw == ScpOf(host, path) && ScpAcceptable(host, path)
    ensures forall host, path :: ':' !in host && raw == ScpOf(host, path) && ScpAcceptable(host, path) ==>
      Canonicalize(raw) == Some(Render(Class(Remote(Some(Scp), host, path))))
  {
    UriOfScp(raw);
    if Canonicalize(raw).Some? {
      var host, path := ScpTaken(raw);
      ScpSpelling(host, path);
      assert ':' !in host && raw == ScpOf(host, path) && ScpAcceptable(host, path);
    }
    forall host, path | ':' !in host && raw == ScpOf(host, path) && ScpAcceptable(host, path)
      ensures Canonicalize(raw) == Some(Render(Class(Remote(Some(Scp), host, path))))
    {
      ScpSpelling(host, path);
    }
  }

  /** `host/path` as an identity holds it: lower-case host, unambiguous path without a trailing `.git`. */
  ghost predicate IdentityText(text: string, host: string, path: string) {
    && text == host + "/" + path && HostOk(host) && ToLower(host) == host
    && PathOk(path) && !HasSuffix(path, ".git")
  }

  lemma TextTaken(text: string, hosted: bool) returns (host: string, path: string)
    requires CanonicalizeIdentityText(text, hosted).Some?
    ensures text == host + "/" + path && HostedProvider(host) == hosted && HostPath(host, path) == Some(text)
  {
    var slash := IndexOf(text, '/');
    host, path := text[..slash], text[slash + 1..];
  }

  /** Trimming changes nothing only where there is nothing to trim. */
  lemma Untrimmed(host: string, path: string)
    requires HostPath(host, path) == Some(host + "/" + path)
    ensures IdentityText(host + "/" + path, host, path)
  {
    var lower, trimmed := ToLower(host), TrimmedPath(path);
    assert |lower| == |host| && lower + "/" + trimmed == host + "/" + path;
    assert (lower + "/" + trimmed)[..|host|] == lower && (host + "/" + path)[..|host|] == host;
    assert (lower + "/" + trimmed)[|host| + 1..] == trimmed && (host + "/" + path)[|host| + 1..] == path;
    PathShape(path);
  }

  lemma TextAccepted(text: string, host: string, path: string)
    requires IdentityText(text, host, path)
    ensures CanonicalizeIdentityText(text, HostedProvider(host)) == Some(text)
    ensures CanonicalizeIdentityText(text, !HostedProvider(host)).None?
  {
    assert HostBreak('/');
    IndexOfFirst(host, '/', path);
    assert text[..|host|] == host && text[|host| + 1..] == path;
    PathShape(path);
  }

  lemma TextExactly(text: string, hosted: bool)
    ensures CanonicalizeIdentityText(text, hosted) == Some(text) <==>
      exists host, path :: IdentityText(text, host, path) && HostedProvider(host) == hosted
    ensures CanonicalizeIdentityText(text, hosted) != Some(text) ==> CanonicalizeIdentityText(text, hosted).None?
  {
    if CanonicalizeIdentityText(text, hosted).Some? {
      var host, path := TextTaken(text, hosted);
      Untrimmed(host, path);
    }
    if host, path :| IdentityText(text, host, path) && HostedProvider(host) == hosted {
      TextAccepted(text, host, path);
    }
  }

  /** Without a scheme and without `@`, only the canonical text of a hosted identity is accepted, as itself. */
  lemma HostedAcceptedExactly(raw: string)
    requires !HasPrefix(raw, LOCAL_PREFIX) && !HasPrefix(raw, SCP_SCHEME) && !Contains(raw, "://") && '@' !in raw
    ensures Canonicalize(raw) == Some(raw) <==>
      exists host, path :: IdentityText(raw, host, path) && HostedProvider(host)
    ensures Canonicalize(raw) == Some(raw) || Canonicalize(raw).None?
  {
    TextExactly(raw, true);
    if Canonicalize(raw) == Some(raw) {
      var host, path :| IdentityText(raw, host, path) && HostedProvider(host) == true;
    }
    if host, path :| IdentityText(raw, host, path) && HostedProvider(host) {
      assert HostedProvider(host) == true;
    }
  }

  ghost predicate NotHosted(host: string, path: string) {
    IdentityText(host + "/" + path, host, path) && !HostedProvider(host)
  }

  /**
   Under `ssh+scp://` only `git@` and the canonical text of an identity that is
   not hosted are accepted, as themselves.
   */
  lemma ScpIdentityAcceptedExactly(raw: string)
    requires HasPrefix(raw, "ssh+scp://")
    ensures Canonicalize(raw) == Some(raw) <==>
      exists host, path :: raw == "ssh+scp://git@" + (host + "/" + path) && NotHosted(host, path)
    ensures Canonicalize(raw) == Some(raw) || Canonicalize(raw).None?
  {
    assert raw[0] == 's' && LOCAL_PREFIX[0] == 'l';
    if HasPrefix(raw, SCP_PREFIX) {
      var text := raw[|SCP_PREFIX|..];
      assert raw == SCP_PREFIX + text;
      TextExactly(text, false);
      if Canonicalize(raw).Some? {
        var host, path :| IdentityText(text, host, path) && HostedProvider(host) == false;
        assert raw == "ssh+scp://git@" + (host + "/" + path);
      }
      if host, path :| raw == "ssh+scp://git@" + (host + "/" + path) && NotHosted(host, path) {
        assert raw[|SCP_PREFIX|..] == host + "/" + path;
        assert IdentityText(text, host, path) && HostedProvider(host) == false;
      }
    } else {
      forall rest | raw == "ssh+scp://git@" + rest ensures HasPrefix(raw, SCP_PREFIX) {
      }
    }
  }

  /** A local identity is the prefix and sixty-four lower-case hexadecimal digits, accepted as itself. */
  lemma LocalAcceptedExactly(digits: string)
    ensures Canonicalize("local://sha256/" + digits) ==
      if |digits| == 64 && (forall c :: c in digits ==> '0' <= c <= '9' || 'a' <= c <= 'f')
      then Some("local://sha256/" + digits) else None
  {
    assert ("local://sha256/" + digits)[|LOCAL_PREFIX|..] == digits;
    assert HasPrefix("local://sha256/" + digits, LOCAL_PREFIX);
  }
}
