/** Which inputs share an identity, how an identity reads back, and which identities are fixpoints. */
module IdentityLaws {
  import opened Seqs
  import opened Text
  import opened Identity

  /** What a remote names, before any canonicalization: transport class, host and path as written. */
  datatype Remote = Remote(transport: Option<Transport>, host: string, path: string)

  /** An input read by the grammar its text falls in; the hosted grammar has no transport. */
  function Read(raw: string): Option<Remote> {
    if HasPrefix(raw, LOCAL_PREFIX) then None
    else if HasPrefix(raw, SCP_PREFIX) then
      var (host, path) := Cut(raw[|SCP_PREFIX|..], '/');
      Some(Remote(Some(Scp), host, path))
    else if Contains(raw, "://") then
      match ParseUrl(raw)
      case None => None
      case Some(url) => Some(Remote(UrlTransport(url.scheme), url.host, url.path))
    else if '@' in raw then
      var (host, path) := Cut(Cut(raw, '@').1, ':');
      Some(Remote(Some(Scp), host, path))
    else
      var (host, path) := Cut(raw, '/');
      Some(Remote(None, host, path))
  }

  /** The class of remotes an identity stands for: transports are forgotten on hosted providers. */
  function Class(r: Remote): Remote {
    Remote(if HostedProvider(r.host) then None else r.transport, ToLower(r.host), TrimmedPath(r.path))
  }

  /** The text of a class. */
  function Render(c: Remote): string {
    (match c.transport case None => "" case Some(t) => TransportPrefix(t)) + (c.host + "/" + c.path)
  }

  /** Reads an identity back. */
  function Decode(id: string): Remote {
    var (transport, rest) :=
      if HasPrefix(id, "http://") then (Some(Http), id[7..])
      else if HasPrefix(id, "https://") then (Some(Https), id[8..])
      else if HasPrefix(id, "ssh://git@") then (Some(Ssh), id[10..])
      else if HasPrefix(id, SCP_PREFIX) then (Some(Scp), id[14..])
      else (None, id);
    Remote(transport, Cut(rest, '/').0, Cut(rest, '/').1)
  }

  /** A class the canonicalizer can produce. */
  ghost predicate Producible(c: Remote) {
    && HostOk(c.host) && PathOk(c.path) && ToLower(c.host) == c.host
    && (c.transport.None? <==> HostedProvider(c.host))
    && (c.transport.Some? && !c.transport.value.Scp? ==> UrlSafe(c.host, c.path))
  }

  /** Host and path text that came through a URL. */
  ghost predicate UrlSafe(host: string, path: string) {
    && (forall c :: c in host ==> HostChar(c))
    && (forall c :: c in path ==> !IsControl(c) && c != '%')
  }

  lemma HostPathRenders(t: Option<Transport>, host: string, path: string)
    requires HostPath(host, path).Some?
    ensures var c := Class(Remote(t, host, path));
      && HostOk(c.host) && PathOk(c.path) && ToLower(c.host) == c.host
      && (HostedProvider(c.host) <==> HostedProvider(host))
      && HostPath(host, path).value == c.host + "/" + c.path
  {
    LowerKeepsHost(host);
    LowerTwice(host);
  }

  lemma ScpPrefixes(raw: string)
    requires HasPrefix(raw, SCP_PREFIX)
    ensures HasPrefix(raw, SCP_SCHEME) && !HasPrefix(raw, LOCAL_PREFIX)
  {
    assert SCP_SCHEME == SCP_PREFIX[..10];
    assert raw[0] == SCP_PREFIX[0] == 's' && LOCAL_PREFIX[0] == 'l';
  }

  /** `raw` names the class `Class(r)`, and its identity is that class's text. */
  ghost predicate Names(raw: string, r: Remote, id: string) {
    Read(raw) == Some(r) && Producible(Class(r)) && Render(Class(r)) == id
  }

  lemma ClassProducible(r: Remote)
    requires HostPath(r.host, r.path).Some?
    requires r.transport.None? ==> HostedProvider(r.host)
    requires r.transport in {Some(Http), Some(Https), Some(Ssh)} ==> UrlSafe(r.host, r.path)
    ensures Producible(Class(r))
    ensures Render(Class(r)) == (match Class(r).transport case None => "" case Some(t) => TransportPrefix(t))
                                + HostPath(r.host, r.path).value
  {
    HostPathRenders(r.transport, r.host, r.path);
    if UrlSafe(r.host, r.path) {
      UrlSafeTrimmed(r.host, r.path);
    }
  }

  lemma UrlSafeTrimmed(host: string, path: string)
    requires UrlSafe(host, path)
    ensures UrlSafe(ToLower(host), TrimmedPath(path))
  {
    forall c | c in ToLower(host) ensures HostChar(c) {
      var i :| 0 <= i < |host| && ToLower(host)[i] == c;
      LowerChar(host[i]);
      assert host[i] in host;
    }
  }

  lemma ScpIdentityRead(raw: string)
    requires HasPrefix(raw, SCP_PREFIX) && Canonicalize(raw).Some?
    ensures Canonicalize(raw) == Some(raw) && CanonicalizeIdentityText(raw[|SCP_PREFIX|..], false).Some?
    ensures var (host, path) := Cut(raw[|SCP_PREFIX|..], '/'); Read(raw) == Some(Remote(Some(Scp), host, path))
  {
    ScpPrefixes(raw);
  }

  lemma HostedIdentityRead(raw: string)
    requires !HasPrefix(raw, LOCAL_PREFIX) && !HasPrefix(raw, SCP_SCHEME)
    requires !Contains(raw, "://") && '@' !in raw && Canonicalize(raw).Some?
    ensures Canonicalize(raw) == Some(raw) && CanonicalizeIdentityText(raw, true).Some?
    ensures var (host, path) := Cut(raw, '/'); Read(raw) == Some(Remote(None, host, path))
  {
    if HasPrefix(raw, SCP_PREFIX) {
      ScpPrefixes(raw);
    }
  }

  lemma CutMembers(s: string, c: char)
    ensures forall d :: d in Cut(s, c).0 || d in Cut(s, c).1 ==> d in s
    ensures c !in Cut(s, c).0
  {
  }

  lemma UrlTextSafe(raw: string)
    requires ParseUrl(raw).Some? && ParseUrl(raw).value.host != "" && '%' !in raw
    ensures UrlSafe(ParseUrl(raw).value.host, ParseUrl(raw).value.path)
  {
    var text := Cut(raw, '#').0;
    CutMembers(raw, '#');
    var rest := SplitScheme(text).value.1;
    assert forall c :: c in rest ==> c in text;
    CutMembers(rest, '?');
    var reference := Cut(rest, '?').0;
    assert forall c :: c in ParseUrl(raw).value.path ==> c in reference;
  }

  lemma UrlRead(raw: string)
    requires !HasPrefix(raw, LOCAL_PREFIX) && !HasPrefix(raw, SCP_SCHEME)
    requires Contains(raw, "://") && Canonicalize(raw).Some?
    ensures ParseUrl(raw).Some? && Canonicalize(raw) == CanonicalizeUrl(ParseUrl(raw).value) && '%' !in raw
    ensures var url := ParseUrl(raw).value; Read(raw) == Some(Remote(UrlTransport(url.scheme), url.host, url.path))
  {
    if HasPrefix(raw, SCP_PREFIX) {
      ScpPrefixes(raw);
    }
  }

  lemma UrlAccepted(url: Url)
    requires CanonicalizeUrl(url).Some?
    ensures UrlTransport(url.scheme).Some? && HostPath(url.host, url.path).Some?
    ensures var canonical := HostPath(url.host, url.path).value;
      CanonicalizeUrl(url) == Some(if HostedProvider(url.host) then canonical
                                   else TransportPrefix(UrlTransport(url.scheme).value) + canonical)
  {
  }

  lemma UrlRenders(url: Url)
    requires CanonicalizeUrl(url).Some? && UrlSafe(url.host, url.path)
    ensures var c := Class(Remote(UrlTransport(url.scheme), url.host, url.path));
      Producible(c) && Some(Render(c)) == CanonicalizeUrl(url)
  {
    UrlAccepted(url);
    var r := Remote(UrlTransport(url.scheme), url.host, url.path);
    ClassProducible(r);
    assert HostedProvider(url.host) ==> "" + HostPath(url.host, url.path).value == HostPath(url.host, url.path).value;
  }

  lemma ScpLikeRead(raw: string)
    requires !HasPrefix(raw, LOCAL_PREFIX) && !HasPrefix(raw, SCP_SCHEME)
    requires !Contains(raw, "://") && '@' in raw && Canonicalize(raw).Some?
    ensures var (host, path) := Cut(Cut(raw, '@').1, ':');
      && Read(raw) == Some(Remote(Some(Scp), host, path))
      && HostPath(host, path).Some?
      && Canonicalize(raw) == if HostedProvider(host) then HostPath(host, path)
                              else Some(SCP_PREFIX + HostPath(host, path).value)
  {
    if HasPrefix(raw, SCP_PREFIX) {
      ScpPrefixes(raw);
    }
  }

  lemma UrlNames(raw: string)
    requires Canonicalize(raw).Some? && !HasPrefix(raw, LOCAL_PREFIX) && !HasPrefix(raw, SCP_SCHEME)
    requires Contains(raw, "://")
    ensures Read(raw).Some? && Names(raw, Read(raw).value, Canonicalize(raw).value)
  {
    UrlRead(raw);
    UrlTextSafe(raw);
    UrlRenders(ParseUrl(raw).value);
  }

  lemma ScpClass(host: string, path: string)
    requires HostPath(host, path).Some?
    ensures var c := Class(Remote(Some(Scp), host, path)); (
      && Producible(c)
      && Render(c) == if HostedProvider(host) then HostPath(host, path).value
                      else SCP_PREFIX + HostPath(host, path).value)
  {
    ClassProducible(Remote(Some(Scp), host, path));
  }

  lemma IdentityTextParts(text: string, hosted: bool)
    requires CanonicalizeIdentityText(text, hosted).Some?
    ensures HostPath(Cut(text, '/').0, Cut(text, '/').1) == Some(text) && HostedProvider(Cut(text, '/').0) == hosted
  {
  }

  lemma ScpIdentityNames(raw: string)
    requires Canonicalize(raw).Some? && HasPrefix(raw, SCP_PREFIX)
    ensures Read(raw).Some? && Names(raw, Read(raw).value, Canonicalize(raw).value)
  {
    ScpIdentityRead(raw);
    var text := raw[|SCP_PREFIX|..];
    IdentityTextParts(text, false);
    ScpClass(Cut(text, '/').0, Cut(text, '/').1);
    assert raw == SCP_PREFIX + text;
  }

  lemma ScpLikeNames(raw: string)
    requires Canonicalize(raw).Some? && !HasPrefix(raw, LOCAL_PREFIX) && !HasPrefix(raw, SCP_SCHEME)
    requires !Contains(raw, "://") && '@' in raw
    ensures Read(raw).Some? && Names(raw, Read(raw).value, Canonicalize(raw).value)
  {
    ScpLikeRead(raw);
    ScpClass(Read(raw).value.host, Read(raw).value.path);
  }

  /** Every accepted remote is read as a class whose text is its identity. */
  lemma AcceptedNames(raw: string)
    requires Canonicalize(raw).Some? && !HasPrefix(raw, LOCAL_PREFIX)
    ensures Read(raw).Some? && Names(raw, Read(raw).value, Canonicalize(raw).value)
  {
    if HasPrefix(raw, SCP_SCHEME) {
      ScpIdentityNames(raw);
    } else if Contains(raw, "://") {
      UrlNames(raw);
    } else if '@' in raw {
      ScpLikeNames(raw);
    } else {
      HostedIdentityRead(raw);
      ClassProducible(Read(raw).value);
    }
  }

  // ---- unique decoding and identity classes ----

  lemma CutFirst(a: string, c: char, x: string)
    requires c !in a
    ensures Cut(a + [c] + x, c) == (a, x)
  {
    IndexOfFirst(a, c, x);
    assert (a + [c] + x)[..|a|] == a && (a + [c] + x)[|a| + 1..] == x;
  }

  /** The tail of an identity after its transport prefix reads back as host and path. */
  lemma HostPathDecodes(host: string, path: string)
    requires HostOk(host)
    ensures Cut(host + "/" + path, '/') == (host, path)
  {
    assert HostBreak('/');
    CutFirst(host, '/', path);
  }

  lemma HostedFirst(host: string)
    requires HostedProvider(host) && ToLower(host) == host
    ensures host[0] == 'b' || host[0] == 'g'
  {
  }

  lemma DecodeTransported(t: Transport, text: string)
    ensures Decode(TransportPrefix(t) + text) == Remote(Some(t), Cut(text, '/').0, Cut(text, '/').1)
  {
    var id := TransportPrefix(t) + text;
    match t
    case Http => assert id[7..] == text;
    case Https => assert id[4] == 's' && id[8..] == text;
    case Ssh => assert id[0] == 's' && id[10..] == text;
    case Scp => assert id[0] == 's' && id[3] == '+' && id[14..] == text;
  }

  lemma DecodeUntransported(text: string)
    requires text != "" && (text[0] == 'b' || text[0] == 'g')
    ensures Decode(text) == Remote(None, Cut(text, '/').0, Cut(text, '/').1)
  {
    assert SCP_PREFIX[0] == 's';
  }

  lemma DecodeRender(c: Remote)
    requires Producible(c)
    ensures Decode(Render(c)) == c
  {
    var text := c.host + "/" + c.path;
    HostPathDecodes(c.host, c.path);
    match c.transport
    case Some(t) => DecodeTransported(t, text);
    case None =>
      HostedFirst(c.host);
      assert Render(c) == text && text[0] == c.host[0];
      DecodeUntransported(text);
  }

  /** Every identity of a remote reads back, in one way, as the class of remotes it stands for. */
  lemma IdentityDecodes(raw: string)
    requires Canonicalize(raw).Some? && !HasPrefix(raw, LOCAL_PREFIX)
    ensures Read(raw).Some? && Decode(Canonicalize(raw).value) == Class(Read(raw).value)
  {
    AcceptedNames(raw);
    DecodeRender(Class(Read(raw).value));
  }

  /**
   Two accepted remotes share an identity exactly when their lower-cased hosts
   and trimmed paths agree and either the host is a hosted provider or the
   transport class is the same.
   */
  lemma IdentityClasses(raw1: string, raw2: string)
    requires Canonicalize(raw1).Some? && !HasPrefix(raw1, LOCAL_PREFIX)
    requires Canonicalize(raw2).Some? && !HasPrefix(raw2, LOCAL_PREFIX)
    ensures Read(raw1).Some? && Read(raw2).Some?
    ensures var (a, b) := (Read(raw1).value, Read(raw2).value);
      Canonicalize(raw1) == Canonicalize(raw2) <==>
        && ToLower(a.host) == ToLower(b.host)
        && TrimmedPath(a.path) == TrimmedPath(b.path)
        && (HostedProvider(a.host) || a.transport == b.transport)
  {
    AcceptedNames(raw1);
    AcceptedNames(raw2);
    IdentityDecodes(raw1);
    IdentityDecodes(raw2);
    var (a, b) := (Read(raw1).value, Read(raw2).value);
    if ToLower(a.host) == ToLower(b.host) {
      SameHostProvider(a.host, b.host);
    }
  }

  lemma SameHostProvider(a: string, b: string)
    requires ToLower(a) == ToLower(b)
    ensures HostedProvider(a) <==> HostedProvider(b)
  {
  }
}
