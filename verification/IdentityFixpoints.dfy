/** Canonicalizing an identity again: the exact identities that do not come back unchanged. */
module IdentityFixpoints {
  import opened Seqs
  import opened Text
  import opened Identity
  import opened IdentityLaws

  // ---- what an accepted path looks like ----

  lemma {:induction false} SplitFirst(p: string)
    requires p == "" || p[0] == '/'
    ensures Split(p, '/')[0] == ""
  {
    assert p != "" ==> IndexOf(p, '/') == 0;
  }

  lemma {:induction false} SplitLast(p: string)
    requires p == "" || p[|p| - 1] == '/'
    ensures "" in Split(p, '/')
    decreases |p|
  {
    var i := IndexOf(p, '/');
    if i >= 0 {
      SplitLast(p[i + 1..]);
    }
  }

  lemma {:induction false} SplitDouble(p: string, k: nat)
    requires k + 1 < |p| && p[k] == p[k + 1] == '/'
    ensures "" in Split(p, '/')
    decreases |p|
  {
    var i := IndexOf(p, '/');
    forall j | 0 <= j < i ensures p[j] != '/' {
      assert p[..i][j] == p[j];
    }
    if i == k {
      SplitFirst(p[i + 1..]);
    } else {
      SplitDouble(p[i + 1..], k - i - 1);
    }
  }

  lemma {:induction false} SplitCovers(p: string, c: char)
    requires c in p && c != '/'
    ensures exists segment :: segment in Split(p, '/') && c in segment
    decreases |p|
  {
    var i := IndexOf(p, '/');
    if i < 0 {
      assert p in Split(p, '/');
    } else if c in p[..i] {
      assert p[..i] in Split(p, '/');
    } else {
      assert p == p[..i] + [p[i]] + p[i + 1..];
      SplitCovers(p[i + 1..], c);
      var segment :| segment in Split(p[i + 1..], '/') && c in segment;
      assert segment in Split(p, '/');
    }
  }

  lemma PathShape(p: string)
    requires PathOk(p)
    ensures p[0] != '/' && p[|p| - 1] != '/'
    ensures forall k :: 0 <= k < |p| - 1 ==> !(p[k] == '/' && p[k + 1] == '/')
    ensures forall c :: c in p ==> !SegmentBreak(c)
    ensures HasSuffix(p, ".git") <==> TrimmedPath(p) != p
    ensures TrimmedPath("/" + p) == TrimmedPath(p)
  {
    if p[0] == '/' {
      SplitFirst(p);
    }
    if p[|p| - 1] == '/' {
      SplitLast(p);
    }
    forall k | 0 <= k < |p| - 1 ensures !(p[k] == '/' && p[k + 1] == '/') {
      if p[k] == '/' && p[k + 1] == '/' {
        SplitDouble(p, k);
      }
    }
    forall c | c in p ensures !SegmentBreak(c) {
      if c != '/' {
        SplitCovers(p, c);
      }
    }
    assert ("/" + p)[1..] == p;
  }

  // ---- canonicalizing an identity again ----

  /** Identities that do not come back unchanged, told from their text. */
  predicate Exceptional(id: string) {
    var c := Decode(id);
    || HasSuffix(c.path, ".git")
    || (c.transport.None? && '@' in c.path)
    || (c.transport.Some? && !c.transport.value.Scp? && HasSuffix(c.path, " "))
  }

  /** A class's path, trimmed again, is shorter exactly when it still ends in `.git`. */
  lemma HostPathOnce(c: Remote)
    requires Producible(c)
    ensures HostPath(c.host, c.path) == Some(c.host + "/" + c.path) <==> !HasSuffix(c.path, ".git")
  {
    PathShape(c.path);
    if HasSuffix(c.path, ".git") {
      assert |TrimmedPath(c.path)| < |c.path|;
      assert HostPath(c.host, c.path).Some? ==> |HostPath(c.host, c.path).value| < |c.host + "/" + c.path|;
    }
  }

  lemma IdentityTextAgain(c: Remote)
    requires Producible(c)
    ensures var text := c.host + "/" + c.path;
      CanonicalizeIdentityText(text, HostedProvider(c.host)) == if HasSuffix(c.path, ".git") then None else Some(text)
  {
    var text := c.host + "/" + c.path;
    assert HostBreak('/');
    IndexOfFirst(c.host, '/', c.path);
    assert text[..|c.host|] == c.host && text[|c.host| + 1..] == c.path;
    HostPathOnce(c);
  }

  lemma ScpAgain(c: Remote)
    requires Producible(c) && c.transport == Some(Scp)
    ensures Canonicalize(Render(c)) == Some(Render(c)) <==> !HasSuffix(c.path, ".git")
  {
    var id, text := Render(c), c.host + "/" + c.path;
    assert HasPrefix(id, SCP_PREFIX) && id[|SCP_PREFIX|..] == text;
    ScpPrefixes(id);
    IdentityTextAgain(c);
  }

  lemma NoAuthority(text: string)
    requires forall k :: 0 <= k < |text| - 1 ==> !(text[k] == '/' && text[k + 1] == '/')
    ensures !Contains(text, "://")
  {
    forall i | 0 <= i <= |text| - |"://"| ensures !PartAt(text, "://", i) {
      assert text[i..i + 3][1] == text[i + 1] && text[i..i + 3][2] == text[i + 2];
    }
  }

  lemma SingleSlashes(host: string, path: string)
    requires '/' !in host && path != "" && path[0] != '/'
    requires forall k :: 0 <= k < |path| - 1 ==> !(path[k] == '/' && path[k + 1] == '/')
    ensures var text := host + "/" + path;
      forall k :: 0 <= k < |text| - 1 ==> !(text[k] == '/' && text[k + 1] == '/')
  {
    var text := host + "/" + path;
    forall k | 0 <= k < |text| - 1 ensures !(text[k] == '/' && text[k + 1] == '/') {
      if k < |host| {
        assert text[k] == host[k];
      } else if k == |host| {
        assert text[k + 1] == path[0];
      } else {
        assert text[k] == path[k - |host| - 1] && text[k + 1] == path[k - |host| - 1 + 1];
      }
    }
  }

  lemma HostedText(c: Remote)
    requires Producible(c)
    ensures '/' !in c.host && '@' !in c.host
    ensures !Contains(c.host + "/" + c.path, "://")
    ensures '@' in c.host + "/" + c.path <==> '@' in c.path
  {
    assert HostBreak('/') && HostBreak('@');
    PathShape(c.path);
    SingleSlashes(c.host, c.path);
    NoAuthority(c.host + "/" + c.path);
  }

  /** An `@` after the first slash is no SCP-like remote: its user would hold that slash. */
  lemma NotScpLike(host: string, path: string)
    requires '@' !in host
    ensures CanonicalizeScpLike(host + "/" + path).None?
  {
    var id := host + "/" + path;
    var at := IndexOf(id, '@');
    forall j | 0 <= j <= |host| ensures id[j] != '@' {
      assert j < |host| ==> id[j] == host[j];
    }
    if at >= 0 {
      assert id[..at][|host|] == '/';
      assert id[..at] != "git";
    }
  }

  lemma HostedAgain(c: Remote)
    requires Producible(c) && c.transport == None
    ensures Canonicalize(Render(c)) == Some(Render(c)) <==> !HasSuffix(c.path, ".git") && '@' !in c.path
  {
    var id := c.host + "/" + c.path;
    HostedUnprefixed(c, id);
    HostedText(c);
    UnschemedText(id);
    if '@' in c.path {
      NotScpLike(c.host, c.path);
    } else {
      IdentityTextAgain(c);
    }
    assert Render(c) == id;
  }

  lemma HostedUnprefixed(c: Remote, id: string)
    requires Producible(c) && c.transport == None && id == c.host + "/" + c.path
    ensures !HasPrefix(id, LOCAL_PREFIX) && !HasPrefix(id, SCP_SCHEME)
  {
    HostedFirst(c.host);
    assert id[0] == c.host[0];
    assert LOCAL_PREFIX[0] == 'l' && SCP_SCHEME[0] == 's';
  }

  lemma UnschemedText(id: string)
    requires !HasPrefix(id, LOCAL_PREFIX) && !HasPrefix(id, SCP_SCHEME) && !Contains(id, "://")
    ensures '@' !in id ==> Canonicalize(id) == CanonicalizeIdentityText(id, true)
    ensures '@' in id && CanonicalizeScpLike(id).None? ==> Canonicalize(id).None?
  {
  }

  // ---- URL identities ----

  lemma CutAbsent(s: string, c: char)
    requires c !in s
    ensures Cut(s, c) == (s, "")
  {
  }

  lemma LastIndexOfHost(user: string, host: string)
    requires '@' !in host && (user == "" || user == "git@")
    ensures LastIndexOf(user + host, '@') == |user| - 1
  {
    var s := user + host;
    var at := LastIndexOf(s, '@');
    forall i | |user| <= i < |s| ensures s[i] != '@' {
      assert s[i] == host[i - |user|];
    }
    if user == "git@" {
      assert s[3] == '@';
    } else {
      assert s == host;
    }
  }

  /** The pieces of a URL without query, fragment or port. */
  ghost predicate PlainUrl(scheme: string, user: string, host: string, path: string) {
    && scheme != "" && IsLetter(scheme[0]) && ToLower(scheme) == scheme
    && (forall c :: c in scheme ==> SchemeChar(c) && c != ':' && c != '#' && c != '?' && !IsControl(c))
    && (user == "" || user == "git@")
    && HostOk(host) && UrlSafe(host, path)
    && (forall c :: c in path ==> c != '#' && c != '?')
  }

  lemma SchemeSplits(scheme: string, rest: string)
    requires scheme != "" && IsLetter(scheme[0]) && ToLower(scheme) == scheme
    requires forall c :: c in scheme ==> SchemeChar(c) && c != ':'
    ensures SplitScheme(scheme + ":" + rest) == Some((scheme, rest))
  {
    var s := scheme + ":" + rest;
    IndexOfFirst(scheme, ':', rest);
    assert s[..|scheme|] == scheme && s[|scheme| + 1..] == rest;
  }

  lemma PlainCharacters(scheme: string, user: string, host: string, path: string)
    requires PlainUrl(scheme, user, host, path)
    ensures var s := scheme + ":" + ("//" + ((user + host) + "/" + path));
      forall c :: c in s ==> c != '#' && c != '?' && c != '%' && !IsControl(c)
  {
    forall c | c in host ensures c != '#' && c != '?' && c != '%' && !IsControl(c) {
      assert HostChar(c);
    }
    assert !SchemeChar('%');
  }

  lemma AuthorityParses(user: string, host: string)
    requires (user == "" || user == "git@") && HostOk(host) && forall c :: c in host ==> HostChar(c)
    ensures ParseAuthority(user + host) == Some((if user == "" then NoUser else Named("git"), host, ""))
  {
    assert HostBreak('@') && !HostChar(':');
    LastIndexOfHost(user, host);
    assert (user + host)[|user|..] == host;
    CutAbsent(host, ':');
    assert user != "" ==> (user + host)[..3] == "git";
  }

  lemma ReferenceParses(user: string, host: string, path: string)
    requires (user == "" || user == "git@") && HostOk(host) && forall c :: c in host ==> HostChar(c)
    ensures ParseReference("//" + ((user + host) + "/" + path))
         == Some((if user == "" then NoUser else Named("git"), host, "", "/" + path))
  {
    var after := (user + host) + "/" + path;
    assert HostBreak('/');
    IndexOfFirst(user + host, '/', path);
    assert ("//" + after)[2..] == after;
    assert after[..|user + host|] == user + host && after[|user + host|..] == "/" + path;
    AuthorityParses(user, host);
  }

  lemma PlainUrlParses(scheme: string, user: string, host: string, path: string)
    requires PlainUrl(scheme, user, host, path)
    ensures ParseUrl(scheme + ":" + ("//" + ((user + host) + "/" + path)))
         == Some(Url(scheme, if user == "" then NoUser else Named("git"), host, "", "/" + path, "", ""))
  {
    var rest := "//" + ((user + host) + "/" + path);
    var s := scheme + ":" + rest;
    PlainCharacters(scheme, user, host, path);
    CutAbsent(s, '#');
    SchemeSplits(scheme, rest);
    assert forall c :: c in rest ==> c in s;
    CutAbsent(rest, '?');
    ReferenceParses(user, host, path);
  }

  function SchemeOf(t: Transport): string
    requires !t.Scp?
  {
    match t
    case Http => "http"
    case Https => "https"
    case Ssh => "ssh"
  }

  function UserOf(t: Transport): string {
    if t.Ssh? then "git@" else ""
  }

  lemma UrlPrefixShape(t: Transport)
    requires !t.Scp?
    ensures TransportPrefix(t) == SchemeOf(t) + ":" + ("//" + UserOf(t))
    ensures |TransportPrefix(t)| > 3 && TransportPrefix(t)[0] != 'l' && TransportPrefix(t)[3] != '+'
  {
  }

  lemma UrlIdentityShape(t: Transport, host: string, path: string)
    requires !t.Scp?
    ensures TransportPrefix(t) + (host + "/" + path)
         == SchemeOf(t) + ":" + ("//" + ((UserOf(t) + host) + "/" + path))
    ensures var id := TransportPrefix(t) + (host + "/" + path);
      !HasPrefix(id, LOCAL_PREFIX) && !HasPrefix(id, SCP_SCHEME)
  {
    UrlPrefixShape(t);
    var id := TransportPrefix(t) + (host + "/" + path);
    assert LOCAL_PREFIX[0] == 'l' && SCP_SCHEME[3] == '+';
    assert id[0] == TransportPrefix(t)[0] && id[3] == TransportPrefix(t)[3];
  }

  lemma UrlIdentityHasScheme(t: Transport, rest: string)
    requires !t.Scp?
    ensures Contains(SchemeOf(t) + ":" + ("//" + rest), "://")
  {
    var s := SchemeOf(t) + ":" + ("//" + rest);
    assert PartAt(s, "://", |SchemeOf(t)|);
  }

  lemma SchemeIsPlain(t: Transport)
    requires !t.Scp?
    ensures SchemeOf(t) != "" && IsLetter(SchemeOf(t)[0]) && ToLower(SchemeOf(t)) == SchemeOf(t)
    ensures forall c :: c in SchemeOf(t) ==> SchemeChar(c) && c != ':' && c != '#' && c != '?' && !IsControl(c)
    ensures UrlTransport(SchemeOf(t)) == Some(t)
  {
    var s := SchemeOf(t);
    forall i | 0 <= i < |s| ensures ToLower(s)[i] == s[i] {
    }
  }

  /** Text a URL can hold as host and path. */
  ghost predicate UrlText(host: string, path: string) {
    HostOk(host) && UrlSafe(host, path) && path != "" && forall c :: c in path ==> c != '#' && c != '?'
  }

  lemma UrlTextPlain(t: Transport, host: string, path: string)
    requires !t.Scp? && UrlText(host, path)
    ensures var raw := TransportPrefix(t) + (host + "/" + path);
      raw != "" && '%' !in raw && (forall d :: d in raw ==> !LineBreak(d))
  {
    UrlIdentityShape(t, host, path);
    SchemeIsPlain(t);
    PlainCharacters(SchemeOf(t), UserOf(t), host, path);
    ControlsBreak(TransportPrefix(t) + (host + "/" + path));
  }

  lemma UrlTextEnds(t: Transport, host: string, path: string)
    requires !t.Scp? && UrlText(host, path)
    ensures NoSurroundingSpace(TransportPrefix(t) + (host + "/" + path)) <==> !HasSuffix(path, " ")
  {
    SchemeIsPlain(t);
    UrlPrefixShape(t);
    assert path[|path| - 1] in path;
    EndsPlain(TransportPrefix(t), host + "/", path);
  }

  lemma EndsPlain(scheme: string, host: string, path: string)
    requires scheme != "" && IsLetter(scheme[0]) && path != "" && !IsControl(path[|path| - 1])
    ensures NoSurroundingSpace(scheme + (host + path)) <==> !HasSuffix(path, " ")
  {
    var raw, last := scheme + (host + path), path[|path| - 1];
    assert raw[|raw| - 1] == last && raw[0] == scheme[0] && path[|path| - 1..] == [last];
  }

  lemma ControlsBreak(s: string)
    requires forall c :: c in s ==> !IsControl(c)
    ensures forall c :: c in s ==> !LineBreak(c)
  {
  }

  lemma UrlTextParses(t: Transport, host: string, path: string)
    requires !t.Scp? && UrlText(host, path)
    ensures var raw := TransportPrefix(t) + (host + "/" + path); (
      && !HasPrefix(raw, LOCAL_PREFIX) && !HasPrefix(raw, SCP_SCHEME) && Contains(raw, "://")
      && ParseUrl(raw) == Some(Url(SchemeOf(t), if t.Ssh? then Named("git") else NoUser, host, "", "/" + path, "", "")))
  {
    UrlIdentityShape(t, host, path);
    UrlIdentityHasScheme(t, (UserOf(t) + host) + "/" + path);
    SchemeIsPlain(t);
    PlainUrlParses(SchemeOf(t), UserOf(t), host, path);
  }

  lemma UriOfUrl(id: string)
    requires !HasPrefix(id, LOCAL_PREFIX) && !HasPrefix(id, SCP_SCHEME)
    requires Contains(id, "://") && id != "" && '%' !in id && forall d :: d in id ==> !LineBreak(d)
    requires ParseUrl(id).Some?
    ensures Canonicalize(id) == if NoSurroundingSpace(id) then CanonicalizeUrl(ParseUrl(id).value) else None
  {
  }

  lemma UrlForm(t: Transport, host: string, path: string)
    requires !t.Scp? && host != ""
    ensures CanonicalizeUrl(Url(SchemeOf(t), if t.Ssh? then Named("git") else NoUser, host, "", path, "", ""))
         == if HostPath(host, path).None? then None
            else if HostedProvider(host) then HostPath(host, path)
            else Some(TransportPrefix(t) + HostPath(host, path).value)
  {
    SchemeIsPlain(t);
  }

  /**
   A well-formed http, https or ssh URL is accepted exactly when it does not
   end in a space and its trimmed path is unambiguous; its identity is then the
   text of the class it spells.
   */
  lemma UrlSpelling(t: Transport, host: string, path: string)
    requires !t.Scp? && UrlText(host, path)
    ensures Canonicalize(TransportPrefix(t) + (host + "/" + path))
         == if HasSuffix(path, " ") || !PathOk(TrimmedPath("/" + path)) then None
            else Some(Render(Class(Remote(Some(t), host, "/" + path))))
  {
    UrlTextPlain(t, host, path);
    UrlTextEnds(t, host, path);
    UrlTextParses(t, host, path);
    UriOfUrl(TransportPrefix(t) + (host + "/" + path));
    UrlForm(t, host, "/" + path);
    if PathOk(TrimmedPath("/" + path)) {
      SpelledClass(t, host, "/" + path);
    }
  }

  lemma SpelledClass(t: Transport, host: string, path: string)
    requires UrlSafe(host, path) && HostPath(host, path).Some?
    ensures Render(Class(Remote(Some(t), host, path)))
         == if HostedProvider(host) then HostPath(host, path).value else TransportPrefix(t) + HostPath(host, path).value
  {
    ClassProducible(Remote(Some(t), host, path));
    assert "" + HostPath(host, path).value == HostPath(host, path).value;
  }

  lemma UrlAgain(c: Remote)
    requires Producible(c) && c.transport.Some? && !c.transport.value.Scp?
    ensures Canonicalize(Render(c)) == Some(Render(c)) <==> !HasSuffix(c.path, ".git") && !HasSuffix(c.path, " ")
  {
    var t := c.transport.value;
    PathShape(c.path);
    UrlSpelling(t, c.host, c.path);
    if PathOk(TrimmedPath(c.path)) {
      RespelledPath(t, c.host, c.path);
    }
  }

  lemma SamePrefix(p: string, a: string, b: string)
    ensures p + a == p + b <==> a == b
  {
    assert (p + a)[|p|..] == a && (p + b)[|p|..] == b;
  }

  /** Spelling a class's own text changes it exactly when a `.git` is dropped. */
  lemma RespelledPath(t: Transport, host: string, path: string)
    requires HostOk(host) && ToLower(host) == host && !HostedProvider(host) && PathOk(path) && PathOk(TrimmedPath(path))
    ensures Render(Class(Remote(Some(t), host, "/" + path))) == TransportPrefix(t) + (host + "/" + path)
       <==> !HasSuffix(path, ".git")
  {
    PathShape(path);
    SamePrefix(TransportPrefix(t), host + "/" + TrimmedPath(path), host + "/" + path);
    SamePrefix(host + "/", TrimmedPath(path), path);
  }

  /** The text of a producible class is accepted, and is its own identity, exactly when it is not exceptional. */
  lemma ProducedAgain(c: Remote)
    requires Producible(c)
    ensures Canonicalize(Render(c)) == Some(Render(c)) <==> !Exceptional(Render(c))
  {
    DecodeRender(c);
    match c.transport
    case None => HostedAgain(c);
    case Some(Scp) => ScpAgain(c);
    case Some(_) => UrlAgain(c);
  }

  /**
   Canonicalizing an identity returns it unchanged except when its path still
   ends in `.git`, it is a hosted identity with `@` in its path, or it is an
   http, https or ssh identity ending in a space.
   */
  lemma Fixpoints(raw: string)
    requires Canonicalize(raw).Some?
    ensures var id := Canonicalize(raw).value;
      Canonicalize(id) == Some(id) <==> HasPrefix(raw, LOCAL_PREFIX) || !Exceptional(id)
  {
    if !HasPrefix(raw, LOCAL_PREFIX) {
      AcceptedNames(raw);
      ProducedAgain(Class(Read(raw).value));
    }
  }

  // ---- spellings of one repository ----

  /** Text that may follow the host in both a URL and an SCP-like remote. */
  ghost predicate PathText(path: string) {
    && path != "" && path[0] != '/' && path[|path| - 1] != ' '
    && (forall c :: c in path ==> !IsControl(c) && c != '%' && c != '#' && c != '?')
    && (forall k :: 0 <= k < |path| - 1 ==> !(path[k] == '/' && path[k + 1] == '/'))
  }

  lemma ScpTextSplits(host: string, path: string)
    requires ':' !in host
    ensures SplitScpLike("git" + "@" + (host + ":" + path)) == if path == "" then None else Some(("git", host, path))
  {
    var rest := host + ":" + path;
    var raw := "git" + "@" + rest;
    IndexOfFirst("git", '@', rest);
    IndexOfFirst(host, ':', path);
    assert raw[..3] == "git" && raw[4..] == rest;
    assert rest[..|host|] == host && rest[|host| + 1..] == path;
  }

  lemma ScpTextPrefix(rest: string)
    ensures var raw := "git" + "@" + rest;
      !HasPrefix(raw, LOCAL_PREFIX) && !HasPrefix(raw, SCP_SCHEME) && '@' in raw && raw != ""
  {
    var raw := "git" + "@" + rest;
    assert LOCAL_PREFIX[0] == 'l' && SCP_SCHEME[0] == 's' && raw[0] == 'g' && raw[3] == '@';
  }

  /** Text without the characters the URI grammars refuse outright. */
  ghost predicate PlainText(s: string) {
    forall c :: c in s ==> c != '%' && !LineBreak(c)
  }

  lemma ScpTextPlain(host: string, path: string)
    ensures PlainText("git" + "@" + (host + ":" + path)) <==> PlainText(host) && PlainText(path)
  {
    var raw := "git" + "@" + (host + ":" + path);
    assert forall c :: c in raw <==> c in "git" || c == '@' || c in host || c == ':' || c in path;
    assert forall c :: c in "git" ==> c == 'g' || c == 'i' || c == 't';
  }

  lemma ScpTextEnds(host: string, path: string)
    requires path != ""
    ensures NoSurroundingSpace("git" + "@" + (host + ":" + path)) <==> !IsSpace(path[|path| - 1])
  {
    var raw := "git" + "@" + (host + ":" + path);
    assert raw[0] == 'g' && raw[|raw| - 1] == path[|path| - 1];
  }

  lemma UriOfScp(raw: string)
    requires !HasPrefix(raw, LOCAL_PREFIX) && !HasPrefix(raw, SCP_SCHEME) && '@' in raw && raw != ""
    requires !Contains(raw, "://")
    ensures Canonicalize(raw) == if NoSurroundingSpace(raw) && PlainText(raw) then CanonicalizeScpLike(raw) else None
  {
  }

  lemma ScpParts(host: string, path: string)
    requires path != ""
    ensures CanonicalizeScpParts("git", host, path)
         == if path[0] == '/' || HostPath(host, path).None? then None
            else if HostedProvider(host) then HostPath(host, path) else Some(SCP_PREFIX + HostPath(host, path).value)
  {
    assert HasPrefix(path, "/") <==> path[0] == '/';
    if HostOk(host) {
      forall c | c in "git" + host ensures !ScpBreak(c) {
        assert c in host ==> !HostBreak(c);
      }
    }
  }

  /** What an SCP-like remote of user `git` must satisfy. */
  ghost predicate ScpAcceptable(host: string, path: string) {
    && HostOk(host) && path != "" && path[0] != '/' && !IsSpace(path[|path| - 1])
    && PlainText(host) && PlainText(path)
    && PathOk(TrimmedPath(path))
  }

  /**
   A remote `git@host:path` in the SCP-like grammar is accepted exactly when
   its host is bare, its path is relative, does not end in a space and trims to
   an unambiguous one; its identity is then the text of the class it spells.
   */
  lemma ScpSpelling(host: string, path: string)
    requires ':' !in host && !Contains("git" + "@" + (host + ":" + path), "://")
    ensures Canonicalize("git" + "@" + (host + ":" + path))
         == if ScpAcceptable(host, path) then Some(Render(Class(Remote(Some(Scp), host, path)))) else None
  {
    ScpTextPrefix(host + ":" + path);
    ScpTextPlain(host, path);
    ScpTextSplits(host, path);
    UriOfScp("git" + "@" + (host + ":" + path));
    if path != "" {
      ScpTextEnds(host, path);
      ScpParts(host, path);
      if HostPath(host, path).Some? {
        ScpClass(host, path);
      }
    }
  }

  lemma PathTextUrl(host: string, path: string)
    requires HostOk(host) && (forall c :: c in host ==> HostChar(c)) && PathText(path)
    ensures UrlText(host, path) && !HasSuffix(path, " ")
    ensures TrimmedPath("/" + path) == TrimmedPath(path)
  {
    assert ("/" + path)[1..] == path && path[|path| - 1..] == [path[|path| - 1]];
  }

  lemma HostedRender(t: Option<Transport>, host: string, path: string)
    requires HostedProvider(host)
    ensures Render(Class(Remote(t, host, path))) == ToLower(host) + "/" + TrimmedPath(path)
  {
    var id := ToLower(host) + "/" + TrimmedPath(path);
    assert "" + id == id;
  }

  /** On a hosted provider every spelling of a repository, in any transport, has the one identity `host/path`. */
  lemma HostedSpellingsAgree(t: Transport, host: string, path: string)
    requires !t.Scp? && HostOk(host) && (forall c :: c in host ==> HostChar(c)) && PathText(path)
    requires PathOk(TrimmedPath(path)) && HostedProvider(host)
    ensures Canonicalize(TransportPrefix(t) + (host + "/" + path)) == Some(ToLower(host) + "/" + TrimmedPath(path))
    ensures Canonicalize("git" + "@" + (host + ":" + path)) == Some(ToLower(host) + "/" + TrimmedPath(path))
  {
    HostedUrl(t, host, path);
    HostedScp(host, path);
  }

  lemma HostedUrl(t: Transport, host: string, path: string)
    requires !t.Scp? && HostOk(host) && (forall c :: c in host ==> HostChar(c)) && PathText(path)
    requires PathOk(TrimmedPath(path)) && HostedProvider(host)
    ensures Canonicalize(TransportPrefix(t) + (host + "/" + path)) == Some(ToLower(host) + "/" + TrimmedPath(path))
  {
    PathTextUrl(host, path);
    HostedUrlForm(t, host, path);
  }

  lemma HostedUrlForm(t: Transport, host: string, path: string)
    requires !t.Scp? && UrlText(host, path) && HostedProvider(host)
    requires !HasSuffix(path, " ") && PathOk(TrimmedPath("/" + path))
    ensures Canonicalize(TransportPrefix(t) + (host + "/" + path))
         == Some(ToLower(host) + "/" + TrimmedPath("/" + path))
  {
    UrlSpelling(t, host, path);
    HostedRender(Some(t), host, "/" + path);
  }

  lemma PathTextScp(host: string, path: string)
    requires HostOk(host) && (forall c :: c in host ==> HostChar(c)) && PathText(path)
    ensures ':' !in host && !Contains("git" + "@" + (host + ":" + path), "://")
    ensures PlainText(host) && PlainText(path) && !IsSpace(path[|path| - 1])
  {
    var front := "git" + "@" + host + ":";
    var raw := "git" + "@" + (host + ":" + path);
    assert raw == front + path && HostBreak('/') && !HostChar(':');
    forall c | c in host ensures c != '%' && !LineBreak(c) {
      assert HostChar(c);
    }
    assert path[|path| - 1] in path;
    forall k | 0 <= k < |raw| - 1 ensures !(raw[k] == '/' && raw[k + 1] == '/') {
      assert k < |front| ==> raw[k] == front[k];
      assert k >= |front| ==> raw[k] == path[k - |front|] && raw[k + 1] == path[k - |front| + 1];
    }
    NoAuthority(raw);
  }

  lemma HostedScp(host: string, path: string)
    requires HostOk(host) && (forall c :: c in host ==> HostChar(c)) && PathText(path)
    requires PathOk(TrimmedPath(path)) && HostedProvider(host)
    ensures Canonicalize("git" + "@" + (host + ":" + path)) == Some(ToLower(host) + "/" + TrimmedPath(path))
  {
    PathTextScp(host, path);
    ScpSpelling(host, path);
    HostedRender(Some(Scp), host, path);
  }

  lemma PathOkSegment(segment: string)
    requires '/' !in segment && SegmentOk(segment) && '\\' !in segment
    ensures PathOk(segment)
  {
    assert Split(segment, '/') == [segment];
  }

  predicate PlainSegment(p: string) {
    && p != "" && p != "." && p != ".."
    && forall c :: c in p ==> IsLetter(c) || IsDigit(c) || c == '.'
  }

  /** Only one `.git` is dropped: canonicalizing such a remote twice drops two, one at a time. */
  lemma NotIdempotent(p: string)
    requires PlainSegment(p)
    ensures Canonicalize("https://" + ("h" + "/" + (p + ".git" + ".git")))
         == Some("https://" + ("h" + "/" + (p + ".git")))
    ensures Canonicalize("https://" + ("h" + "/" + (p + ".git"))) == Some("https://" + ("h" + "/" + p))
  {
    PlainGit(p);
    PlainGit(p + ".git");
    HttpsRemote(p + ".git");
    HttpsRemote(p);
  }

  lemma PlainGit(p: string)
    requires PlainSegment(p)
    ensures PlainSegment(p + ".git")
  {
    assert |p + ".git"| > 4;
  }

  lemma GitSuffix(p: string)
    requires p != "" && p[0] != '/'
    ensures HasSuffix(p + ".git", ".git") && TrimmedPath(p + ".git") == p
  {
    assert (p + ".git")[|p|..] == ".git" && (p + ".git")[..|p|] == p;
    assert (p + ".git")[|p| + 3] == 't';
  }

  lemma HttpsText(path: string)
    requires PlainSegment(path)
    ensures UrlText("h", path) && !HasSuffix(path, " ")
  {
    assert path[|path| - 1] in path && path[|path| - 1..] == [path[|path| - 1]];
  }

  lemma HttpsPath(path: string)
    requires PlainSegment(path)
    ensures TrimmedPath("/" + (path + ".git")) == path && PathOk(path)
  {
    assert path[0] in path;
    GitSuffix(path);
    PathOkSegment(path);
    assert ("/" + (path + ".git"))[1..] == path + ".git";
  }

  lemma HttpsRender(path: string)
    ensures Render(Remote(Some(Https), "h", path)) == "https://" + ("h" + "/" + path)
    ensures !HostedProvider("h") && ToLower("h") == "h"
  {
    assert |ToLower("h")| == 1 && ToLower("h")[0] == 'h';
  }

  lemma HttpsRemote(path: string)
    requires PlainSegment(path)
    ensures Canonicalize("https://" + ("h" + "/" + (path + ".git"))) == Some("https://" + ("h" + "/" + path))
  {
    PlainGit(path);
    HttpsText(path + ".git");
    HttpsPath(path);
    HttpsRender(path);
    UrlSpelling(Https, "h", path + ".git");
  }

  lemma SpacePath(p: string)
    requires PlainSegment(p)
    ensures UrlText("h", p + " /") && UrlText("h", p + " ")
    ensures !HasSuffix(p + " /", " ") && HasSuffix(p + " ", " ")
    ensures TrimmedPath("/" + (p + " /")) == p + " " && PathOk(p + " ")
  {
    var spaced := p + " ";
    assert spaced[|spaced| - 1] == ' ' && "."[0] == '.' && ".."[1] == '.';
    PathOkSegment(spaced);
    assert (p + " /")[|p| + 1..] == "/" && (p + " ")[|p|..] == " ";
    var slashed := "/" + (p + " /");
    assert slashed[1..] == p + " /" && (p + " /")[..|p| + 1] == p + " ";
    assert (p + " ")[|p|] == ' ' && p[0] in p;
  }

  /** A space before a trailing slash ends up at the end of the identity, which is then refused. */
  lemma TrailingSpaceRefused(p: string)
    requires PlainSegment(p)
    ensures Canonicalize("https://" + ("h" + "/" + (p + " /"))) == Some("https://" + ("h" + "/" + (p + " ")))
    ensures Canonicalize("https://" + ("h" + "/" + (p + " "))).None?
  {
    SpacePath(p);
    HttpsRender(p + " ");
    UrlSpelling(Https, "h", p + " /");
    UrlSpelling(Https, "h", p + " ");
  }

  lemma AtText(host: string, p: string)
    requires HostOk(host) && (forall c :: c in host ==> HostChar(c)) && PlainSegment(p)
    ensures UrlText(host, "@" + p) && !HasSuffix("@" + p, " ")
  {
    var path := "@" + p;
    assert p[|p| - 1] in p && path[|path| - 1..] == [p[|p| - 1]];
  }

  lemma AtSegment(p: string)
    requires PlainSegment(p)
    ensures PathOk("@" + p)
  {
    assert ("@" + p)[0] == '@' && "."[0] == '.' && ".."[0] == '.';
    PathOkSegment("@" + p);
  }

  lemma SuffixKept(front: string, p: string, suffix: string)
    requires |suffix| <= |p|
    ensures HasSuffix(front + p, suffix) <==> HasSuffix(p, suffix)
  {
    assert (front + p)[|front + p| - |suffix|..] == p[|p| - |suffix|..];
  }

  lemma AtKeepsGit(p: string)
    requires !HasSuffix(p, ".git")
    ensures !HasSuffix("@" + p, ".git")
  {
    if |p| >= 4 {
      SuffixKept("@", p, ".git");
    } else {
      assert ("@" + p)[0] == '@' && ".git"[0] == '.';
    }
  }

  lemma TrimmedAlready(path: string)
    requires !HasSuffix(path, "/") && !HasSuffix(path, ".git")
    ensures TrimmedPath("/" + path) == path
  {
    assert ("/" + path)[1..] == path;
  }

  lemma PlainEnd(p: string)
    requires PlainSegment(p)
    ensures !HasSuffix(p, "/")
  {
    assert p[|p| - 1] in p && p[|p| - 1..] == [p[|p| - 1]];
  }

  lemma AtTrimmed(p: string)
    requires PlainSegment(p) && !HasSuffix(p, ".git")
    ensures TrimmedPath("/" + ("@" + p)) == "@" + p
  {
    PlainEnd(p);
    SuffixKept("@", p, "/");
    AtKeepsGit(p);
    TrimmedAlready("@" + p);
  }

  lemma HostedAtRefused(host: string, path: string)
    requires HostOk(host) && ToLower(host) == host && HostedProvider(host) && PathOk(path) && '@' in path
    ensures Canonicalize(host + "/" + path).None?
  {
    var c := Remote(None, host, path);
    HostedText(c);
    HostedUnprefixed(c, host + "/" + path);
    NotScpLike(host, path);
    UnschemedText(host + "/" + path);
  }

  /** A hosted URL may hold `@` in its path; its identity is then refused. */
  lemma HostedAtOccurs(host: string, p: string)
    requires HostOk(host) && (forall c :: c in host ==> HostChar(c)) && ToLower(host) == host
    requires HostedProvider(host) && PlainSegment(p) && !HasSuffix(p, ".git")
    ensures Canonicalize("https://" + (host + "/" + ("@" + p))) == Some(host + "/" + ("@" + p))
    ensures Canonicalize(host + "/" + ("@" + p)).None?
  {
    AtText(host, p);
    AtSegment(p);
    AtTrimmed(p);
    HostedUrlForm(Https, host, "@" + p);
    HostedAtRefused(host, "@" + p);
  }
}
