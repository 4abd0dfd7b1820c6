/**
 Canonical repository identities. Five input grammars are read: the local
 advisory identity, the SCP identity, the hosted identity, http/https/ssh URLs
 and SCP-like remotes. A refusal is `None`; its wording is not modelled.
 */
module Identity {
  import opened Seqs
  import opened Text

  const LOCAL_PREFIX := "local://sha256/"
  const SCP_SCHEME := "ssh+scp://"
  const SCP_PREFIX := "ssh+scp://git@"

  /** Providers whose repositories have one identity whatever the transport. */
  predicate HostedProvider(host: string) {
    ToLower(host) in {"bitbucket.org", "github.com", "gitlab.com"}
  }

  // ---- host and path ----

  /** Characters a host may not hold: the program's set " \t/@?#\\". */
  predicate HostBreak(c: char) {
    c == ' ' || c == '\t' || c == '/' || c == '@' || c == '?' || c == '#' || c == '\\'
  }

  predicate LineBreak(c: char) { c == '\0' || c == '\r' || c == '\n' }

  predicate SegmentBreak(c: char) { LineBreak(c) || c == '?' || c == '#' }

  /** Characters the user and host of an SCP-like remote may not hold. */
  predicate ScpBreak(c: char) { c == '/' || c == '\\' || c == '?' || c == '#' }

  predicate HostOk(host: string) {
    NoSurroundingSpace(host) && host != "" && forall c :: c in host ==> !HostBreak(c)
  }

  predicate SegmentOk(segment: string) {
    segment != "" && segment != "." && segment != ".." && forall c :: c in segment ==> !SegmentBreak(c)
  }

  predicate PathOk(path: string) {
    path != "" && '\\' !in path && forall segment :: segment in Split(path, '/') ==> SegmentOk(segment)
  }

  /** One leading slash, one trailing slash and one `.git` are dropped. */
  function TrimmedPath(rawPath: string): string {
    TrimSuffix(TrimSuffix(TrimPrefix(rawPath, "/"), "/"), ".git")
  }

  function HostPath(host: string, rawPath: string): Option<string> {
    if HostOk(host) && PathOk(TrimmedPath(rawPath))
    then Some(ToLower(host) + "/" + TrimmedPath(rawPath))
    else None
  }

  method CheckSegments(segments: seq<string>) returns (ok: bool)
    ensures ok <==> forall segment :: segment in segments ==> SegmentOk(segment)
  {
    for i := 0 to |segments|
      invariant forall k :: 0 <= k < i ==> SegmentOk(segments[k])
    {
      if segments[i] == "" || segments[i] == "." || segments[i] == ".."
         || exists c :: c in segments[i] && SegmentBreak(c) {
        assert !SegmentOk(segments[i]);
        return false;
      }
    }
    ok := true;
  }

  method CanonicalHostPath(rawHost: string, rawPath: string) returns (r: Option<string>)
    ensures r == HostPath(rawHost, rawPath)
  {
    LowerKeepsHost(rawHost);
    if !NoSurroundingSpace(rawHost) {
      return None;
    }
    var host := ToLower(rawHost);
    if host == "" || exists c :: c in host && HostBreak(c) {
      return None;
    }
    var path := TrimPrefix(rawPath, "/");
    path := TrimSuffix(path, "/");
    path := TrimSuffix(path, ".git");
    if path == "" || '\\' in path {
      return None;
    }
    var segments := Split(path, '/');
    var ok := CheckSegments(segments);
    if !ok {
      return None;
    }
    r := Some(host + "/" + Join(segments, "/"));
  }

  // ---- URLs, as net/url splits them ----

  datatype User = NoUser | Named(name: string) | WithPassword(name: string, password: string)

  datatype Url = Url(
    scheme: string, user: User, host: string, port: string, path: string, query: string, fragment: string)

  predicate IsControl(c: char) { c < ' ' || c == 127 as char }

  predicate SchemeChar(c: char) { IsLetter(c) || IsDigit(c) || c in "+-." }

  predicate UserChar(c: char) { IsLetter(c) || IsDigit(c) || c in "-._:~!$&'()*+,;=%@" }

  /** Registered-name characters; `<`, `>` and the double quote are let through as well. */
  predicate HostChar(c: char) { IsLetter(c) || IsDigit(c) || c in "-_.~!$&'()*+,;=<>\"" }

  /** Text before and after the first `c`; without one, everything is before. */
  function Cut(s: string, c: char): (string, string) {
    var i := IndexOf(s, c);
    if i < 0 then (s, "") else (s[..i], s[i + 1..])
  }

  function SplitScheme(s: string): Option<(string, string)> {
    var colon := IndexOf(s, ':');
    if colon == 0 then None
    else if colon > 0 && IsLetter(s[0]) && forall c :: c in s[..colon] ==> SchemeChar(c)
    then Some((ToLower(s[..colon]), s[colon + 1..]))
    else Some(("", s))
  }

  function ReadUser(info: string): User {
    if ':' in info then WithPassword(Cut(info, ':').0, Cut(info, ':').1) else Named(info)
  }

  /** The user, host and port of an authority. */
  function ParseAuthority(authority: string): Option<(User, string, string)> {
    var at := LastIndexOf(authority, '@');
    var (host, port) := Cut(authority[at + 1..], ':');
    if (forall c :: c in host ==> HostChar(c)) && (forall c :: c in port ==> IsDigit(c))
       && (at < 0 || forall c :: c in authority[..at] ==> UserChar(c))
    then Some((if at < 0 then NoUser else ReadUser(authority[..at]), host, port))
    else None
  }

  /** An authority runs up to the first slash, which starts the path. */
  function SplitAuthority(text: string): (string, string) {
    var slash := IndexOf(text, '/');
    if slash < 0 then (text, "") else (text[..slash], text[slash..])
  }

  /** A reference that does not start with two slashes has no authority. */
  function ParseReference(reference: string): Option<(User, string, string, string)> {
    if !HasPrefix(reference, "//") then Some((NoUser, "", "", reference))
    else
      var (authority, path) := SplitAuthority(reference[2..]);
      match ParseAuthority(authority)
      case None => None
      case Some((user, host, port)) => Some((user, host, port, path))
  }

  function ParseUrl(raw: string): Option<Url> {
    var (text, fragment) := Cut(raw, '#');
    if exists c :: c in text && IsControl(c) then None
    else
      match SplitScheme(text)
      case None => None
      case Some((scheme, rest)) =>
        var (reference, query) := Cut(rest, '?');
        match ParseReference(reference)
        case None => None
        case Some((user, host, port, path)) => Some(Url(scheme, user, host, port, path, query, fragment))
  }

  datatype Transport = Http | Https | Ssh | Scp

  function UrlTransport(scheme: string): Option<Transport> {
    match scheme
    case "http" => Some(Http)
    case "https" => Some(Https)
    case "ssh" => Some(Ssh)
    case _ => None
  }

  function TransportPrefix(t: Transport): string {
    match t
    case Http => "http://"
    case Https => "https://"
    case Ssh => "ssh://git@"
    case Scp => SCP_PREFIX
  }

  predicate UserAllowed(url: Url) {
    match UrlTransport(url.scheme)
    case Some(Ssh) => url.user == Named("git")
    case Some(_) => url.user == NoUser
    case None => false
  }

  function CanonicalizeUrl(url: Url): Option<string> {
    if url.query != "" || url.fragment != "" || url.port != "" || !UserAllowed(url) || url.host == "" then None
    else
      match HostPath(url.host, url.path)
      case None => None
      case Some(canonical) =>
        if HostedProvider(url.host) then Some(canonical)
        else Some(TransportPrefix(UrlTransport(url.scheme).value) + canonical)
  }

  // ---- the other grammars ----

  /** `user@host:path`, split at the first `@` and the first `:` after it. */
  function SplitScpLike(raw: string): Option<(string, string, string)> {
    var at := IndexOf(raw, '@');
    if at <= 0 then None
    else
      var rest := raw[at + 1..];
      var colon := IndexOf(rest, ':');
      if colon < 0 || colon == |rest| - 1 then None
      else Some((raw[..at], rest[..colon], rest[colon + 1..]))
  }

  function CanonicalizeScpParts(user: string, host: string, path: string): Option<string> {
    if user == "" || host == "" || user != "git" then None
    else if (exists c :: c in user + host && ScpBreak(c)) || HasPrefix(path, "/") then None
    else
      match HostPath(host, path)
      case None => None
      case Some(canonical) => if HostedProvider(host) then Some(canonical) else Some(SCP_PREFIX + canonical)
  }

  function CanonicalizeScpLike(raw: string): Option<string> {
    match SplitScpLike(raw)
    case None => None
    case Some((user, host, path)) => CanonicalizeScpParts(user, host, path)
  }

  function CanonicalizeUri(raw: string): Option<string> {
    if raw == "" || !NoSurroundingSpace(raw) || (exists c :: c in raw && LineBreak(c)) || '%' in raw then None
    else if !Contains(raw, "://") then CanonicalizeScpLike(raw)
    else
      match ParseUrl(raw)
      case None => None
      case Some(url) => CanonicalizeUrl(url)
  }

  function CanonicalizeLocal(raw: string): Option<string>
    requires HasPrefix(raw, LOCAL_PREFIX)
  {
    if DigestValue(raw[|LOCAL_PREFIX|..]) then Some(raw) else None
  }

  method CheckLocalDigest(digest: string) returns (ok: bool)
    ensures ok <==> DigestValue(digest)
  {
    if |digest| != 64 {
      return false;
    }
    for i := 0 to |digest|
      invariant AllLowerHex(digest[..i])
    {
      assert digest[i] in digest && digest[..i + 1] == digest[..i] + [digest[i]];
      if (digest[i] < '0' || digest[i] > '9') && (digest[i] < 'a' || digest[i] > 'f') {
        return false;
      }
    }
    assert digest[..|digest|] == digest;
    ok := true;
  }

  /** `host/path` text that is accepted only when it is already canonical. */
  function CanonicalizeIdentityText(text: string, hosted: bool): Option<string> {
    var slash := IndexOf(text, '/');
    if slash <= 0 || slash == |text| - 1 || HostedProvider(text[..slash]) != hosted then None
    else if HostPath(text[..slash], text[slash + 1..]) == Some(text) then Some(text)
    else None
  }

  function Canonicalize(raw: string): Option<string> {
    if HasPrefix(raw, LOCAL_PREFIX) then CanonicalizeLocal(raw)
    else if HasPrefix(raw, SCP_SCHEME) then
      if !HasPrefix(raw, SCP_PREFIX) then None
      else if CanonicalizeIdentityText(raw[|SCP_PREFIX|..], false).Some? then Some(raw) else None
    else if !Contains(raw, "://") && '@' !in raw then CanonicalizeIdentityText(raw, true)
    else CanonicalizeUri(raw)
  }

  lemma LowerChar(c: char)
    ensures var d := ToLowerChar(c);
      && ToLowerChar(d) == d
      && (HostBreak(c) <==> HostBreak(d)) && (IsSpace(c) <==> IsSpace(d)) && (HostChar(c) <==> HostChar(d))
  {
    if IsUpper(c) {
      assert 'a' <= ToLowerChar(c) <= 'z';
    }
  }

  lemma LowerTwice(s: string)
    ensures ToLower(ToLower(s)) == ToLower(s)
  {
    forall i | 0 <= i < |s| ensures ToLower(ToLower(s))[i] == ToLower(s)[i] {
      LowerChar(s[i]);
    }
  }

  lemma LowerKeepsHost(host: string)
    ensures HostOk(ToLower(host)) <==> HostOk(host)
    ensures (exists c :: c in ToLower(host) && HostBreak(c)) <==> (exists c :: c in host && HostBreak(c))
  {
    var lower := ToLower(host);
    forall i | 0 <= i < |host| ensures HostBreak(host[i]) <==> HostBreak(lower[i]) {
      LowerChar(host[i]);
    }
    if host != "" {
      LowerChar(host[0]);
      LowerChar(host[|host| - 1]);
    }
    if c :| c in host && HostBreak(c) {
      var i :| 0 <= i < |host| && host[i] == c;
      assert lower[i] in lower;
    }
    if c :| c in lower && HostBreak(c) {
      var i :| 0 <= i < |lower| && lower[i] == c;
      assert host[i] in host;
    }
  }
}
