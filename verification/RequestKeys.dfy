/** urlKey and requestKey of webconsistency.go: a URL as one request string. */
module RequestKeys {
  import opened Text

  /** A URL as Go's net/url takes it apart: host name, port and path as written. */
  datatype Url = Url(scheme: string, host: string, port: string, path: string, query: string)

  function DefaultPort(scheme: string): string {
    if scheme == "http" then "80" else if scheme == "https" then "443" else ""
  }

  predicate IsHttp(scheme: string) {
    scheme == "http" || scheme == "https"
  }

  /** The port a key shows: none when it is the scheme's default. */
  function ShownPort(u: Url): string {
    if u.port == DefaultPort(u.scheme) then "" else u.port
  }

  function ShownPath(u: Url): string {
    if u.path == "" then "/" else u.path
  }

  /** `tail` behind the mark `c`, or nothing. */
  function Marked(c: char, tail: string): string {
    if tail == "" then "" else [c] + tail
  }

  function KeyText(scheme: string, host: string, port: string, path: string, query: string): string {
    scheme + "://" + (host + Marked(':', port) + (path + Marked('?', query)))
  }

  /** requestKey as a function; `bare` is bareName, "" for what is not a domain name. */
  function Key(u: Url, withQuery: bool, bare: string -> string): Option<string> {
    if bare(u.host) == "" || !IsHttp(u.scheme) then None
    else Some(KeyText(u.scheme, bare(u.host), ShownPort(u), ShownPath(u), if withQuery then u.query else ""))
  }

  method RequestKey(u: Url, withQuery: bool, bare: string -> string) returns (key: string, ok: bool)
    ensures Key(u, withQuery, bare) == if ok then Some(key) else None
  {
    var host := bare(u.host);
    if host == "" || (u.scheme != "http" && u.scheme != "https") {
      return "", false;
    }
    var path := u.path;
    if path == "" {
      path := "/";
    }
    key := u.scheme + "://" + host;
    if u.port != "" && u.port != DefaultPort(u.scheme) {
      key := key + (":" + u.port);
    }
    PortShown(u.scheme + "://" + host, u);
    key := key + path;
    ghost var before := key;
    if withQuery && u.query != "" {
      key := key + ("?" + u.query);
    }
    assert key == before + Marked('?', if withQuery then u.query else "");
    KeyAssoc(u.scheme, host, Marked(':', ShownPort(u)), path, Marked('?', if withQuery then u.query else ""));
    ok := true;
  }

  lemma PortShown(x: string, u: Url)
    ensures x + Marked(':', ShownPort(u)) ==
      if u.port != "" && u.port != DefaultPort(u.scheme) then x + (":" + u.port) else x
  {
  }

  lemma KeyAssoc(scheme: string, host: string, port: string, path: string, query: string)
    ensures scheme + "://" + host + port + path + query == scheme + "://" + (host + port + (path + query))
  {
  }

  // ------------------------------------------------------------- unambiguity

  /** What net/url guarantees of a parsed URL with a host: the port is digits, the path is
      empty or starts with a slash, and holds no question mark. */
  predicate Parsed(u: Url) {
    && (forall i :: 0 <= i < |u.port| ==> '0' <= u.port[i] <= '9')
    && (u.path == "" || u.path[0] == '/')
    && '?' !in u.path
  }

  /** Names hold none of the marks of a URL. */
  ghost predicate PlainNames(bare: string -> string) {
    forall s: string :: ':' !in bare(s) && '/' !in bare(s) && '?' !in bare(s)
  }

  /** The port a URL without one means. */
  predicate IsDefault(u: Url) {
    u.port == "" || (u.scheme == "http" && u.port == "80") || (u.scheme == "https" && u.port == "443")
  }

  predicate SamePort(u: Url, v: Url) {
    u.port == v.port || (IsDefault(u) && IsDefault(v))
  }

  predicate SamePath(u: Url, v: Url) {
    u.path == v.path || (u.path in {"", "/"} && v.path in {"", "/"})
  }

  /** Two URLs ask for the same thing. */
  predicate SameRequest(u: Url, v: Url, withQuery: bool, bare: string -> string) {
    && u.scheme == v.scheme
    && bare(u.host) == bare(v.host)
    && SamePort(u, v)
    && SamePath(u, v)
    && (withQuery ==> u.query == v.query)
  }

  lemma CutUnique(a: string, c: char, b: string, a': string, b': string)
    requires c !in a && c !in a' && a + [c] + b == a' + [c] + b'
    ensures a == a' && b == b'
  {
    FirstIndex(a, c, b);
    FirstIndex(a', c, b');
    assert (a + [c] + b)[..|a|] == a && (a' + [c] + b')[..|a|] == a';
    assert (a + [c] + b)[|a| + 1..] == b && (a' + [c] + b')[|a| + 1..] == b';
  }

  lemma MarkedHolds(a: string, c: char, b: string)
    requires c !in a
    ensures c in a + Marked(c, b) <==> b != ""
    ensures b == "" ==> a + Marked(c, b) == a
    ensures b != "" ==> a + Marked(c, b) == a + [c] + b
  {
    if b != "" {
      assert (a + Marked(c, b))[|a|] == c;
    }
  }

  /** A text and what may follow it behind a mark can be told apart again. */
  lemma MarkedUnique(a: string, c: char, b: string, a': string, b': string)
    requires c !in a && c !in a' && a + Marked(c, b) == a' + Marked(c, b')
    ensures a == a' && b == b'
  {
    MarkedHolds(a, c, b);
    MarkedHolds(a', c, b');
    if b != "" {
      CutUnique(a, c, b, a', b');
    }
  }

  lemma AuthorityUnique(a: string, p: string, a': string, p': string)
    requires '/' !in a && '/' !in a' && p != "" && p' != "" && p[0] == '/' && p'[0] == '/'
    requires a + p == a' + p'
    ensures a == a' && p == p'
  {
    assert p == ['/'] + p[1..] && p' == ['/'] + p'[1..];
    assert a + ['/'] + p[1..] == a + p && a' + ['/'] + p'[1..] == a' + p';
    CutUnique(a, '/', p[1..], a', p'[1..]);
  }

  predicate KeyParts(host: string, port: string, path: string) {
    && ':' !in host && '/' !in host
    && '/' !in port
    && path != "" && path[0] == '/' && '?' !in path
  }

  lemma TailUnique(host: string, port: string, path: string, query: string, host': string, port': string,
      path': string, query': string)
    requires KeyParts(host, port, path) && KeyParts(host', port', path')
    requires host + Marked(':', port) + (path + Marked('?', query)) ==
        host' + Marked(':', port') + (path' + Marked('?', query'))
    ensures host == host' && port == port' && path == path' && query == query'
  {
    AuthorityUnique(host + Marked(':', port), path + Marked('?', query), host' + Marked(':', port'),
      path' + Marked('?', query'));
    MarkedUnique(host, ':', port, host', port');
    MarkedUnique(path, '?', query, path', query');
  }

  lemma SchemeUnique(scheme: string, rest: string, scheme': string, rest': string)
    requires IsHttp(scheme) && IsHttp(scheme') && scheme + "://" + rest == scheme' + "://" + rest'
    ensures scheme == scheme' && rest == rest'
  {
    assert scheme + [':'] + ("//" + rest) == scheme + "://" + rest;
    assert scheme' + [':'] + ("//" + rest') == scheme' + "://" + rest';
    CutUnique(scheme, ':', "//" + rest, scheme', "//" + rest');
    assert ("//" + rest)[2..] == rest && ("//" + rest')[2..] == rest';
  }

  lemma UrlParts(u: Url, bare: string -> string)
    requires Parsed(u) && PlainNames(bare)
    ensures KeyParts(bare(u.host), ShownPort(u), ShownPath(u))
  {
  }

  /** There is a key exactly for a URL of the web whose host is a name. */
  lemma KeyGiven(u: Url, withQuery: bool, bare: string -> string)
    ensures Key(u, withQuery, bare).Some? <==> bare(u.host) != "" && u.scheme in {"http", "https"}
  {
  }

  /** The key is an unambiguous printer: two URLs have the same key exactly when scheme, host
      name, port up to the scheme's default, path up to "/" for none, and query are the same. */
  lemma KeyUnambiguous(u: Url, v: Url, withQuery: bool, bare: string -> string)
    requires Parsed(u) && Parsed(v) && PlainNames(bare)
    requires Key(u, withQuery, bare).Some? && Key(v, withQuery, bare).Some?
    ensures Key(u, withQuery, bare) == Key(v, withQuery, bare) <==> SameRequest(u, v, withQuery, bare)
  {
    if Key(u, withQuery, bare) == Key(v, withQuery, bare) {
      var q, r := if withQuery then u.query else "", if withQuery then v.query else "";
      SchemeUnique(u.scheme, bare(u.host) + Marked(':', ShownPort(u)) + (ShownPath(u) + Marked('?', q)),
                   v.scheme, bare(v.host) + Marked(':', ShownPort(v)) + (ShownPath(v) + Marked('?', r)));
      UrlParts(u, bare);
      UrlParts(v, bare);
      TailUnique(bare(u.host), ShownPort(u), ShownPath(u), q, bare(v.host), ShownPort(v), ShownPath(v), r);
    }
  }
}
