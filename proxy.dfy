/** The request rewriting of the RESTCONF reverse proxy: where a request is
    forwarded, which headers go upstream and come back, and how the debug
    dump of a request is redacted before it is logged. */
module Proxy {
  import opened Text
  import opened HttpHeader

  // ---------------------------------------------------------------------
  // Target URL
  // ---------------------------------------------------------------------

  /** The parts of a parsed URL that the proxy reads or writes. */
  datatype Url = Url(scheme: string, host: string, path: string, rawQuery: string, fragment: string)

  const RestconfPrefix: string := "/restconf"

  /** The upstream path: the base path without its trailing slashes,
      followed by the incoming path with one leading "/restconf" removed. */
  function TargetPath(basePath: string, incomingPath: string): (path: string)
    ensures HasPrefix(incomingPath, RestconfPrefix) ==>
      path == TrimRightChar(basePath, '/') + incomingPath[|RestconfPrefix|..]
    ensures !HasPrefix(incomingPath, RestconfPrefix) ==> path == TrimRightChar(basePath, '/') + incomingPath
  {
    TrimRightChar(basePath, '/') + TrimPrefix(incomingPath, RestconfPrefix)
  }

  /** The upstream URL: a copy of the base URL whose path is `TargetPath`
      and whose query is the incoming query, verbatim. */
  function TargetUrl(base: Url, incoming: Url): (target: Url)
    ensures target.scheme == base.scheme && target.host == base.host
    ensures target.fragment == base.fragment
    ensures target.rawQuery == incoming.rawQuery
    ensures target.path == TargetPath(base.path, incoming.path)
  {
    base.(path := TargetPath(base.path, incoming.path), rawQuery := incoming.rawQuery)
  }

  /** `n` slashes. */
  function Slashes(n: nat): (s: string)
    ensures |s| == n && forall i :: 0 <= i < n ==> s[i] == '/'
  {
    if n == 0 then [] else Slashes(n - 1) + ['/']
  }

  /** Any number of trailing slashes on the base path is removed, so they
      never reach the upstream path. */
  lemma {:induction false} TargetPathIgnoresTrailingSlashes(basePath: string, n: nat, incomingPath: string)
    ensures TargetPath(basePath + Slashes(n), incomingPath) == TargetPath(basePath, incomingPath)
  {
    if n > 0 {
      var b := basePath + Slashes(n);
      assert b[..|b| - 1] == basePath + Slashes(n - 1);
      TargetPathIgnoresTrailingSlashes(basePath, n - 1, incomingPath);
    } else {
      assert basePath + Slashes(0) == basePath;
    }
  }

  /** Only one "/restconf" is removed: whatever follows the first one,
      including a second "/restconf", is appended as it is. */
  lemma TargetPathCases(basePath: string, incomingPath: string)
    ensures TargetPath(basePath, RestconfPrefix + incomingPath) == TrimRightChar(basePath, '/') + incomingPath
  {
    var p := RestconfPrefix + incomingPath;
    assert HasPrefix(p, RestconfPrefix) by { assert p[..|RestconfPrefix|] == RestconfPrefix; }
    assert p[|RestconfPrefix|..] == incomingPath;
  }

  /** A variant of the handler comment's example, with a trailing slash on
      the base path and a query: "/restconf/data/ietf-interfaces/interfaces"
      against the base "http://localhost:8080/restconf/" keeps its path and query. */
  lemma TargetUrlExample(base: Url, incoming: Url, rest: string)
    requires base == Url("http", "localhost:8080", "/restconf/", "", "")
    requires rest == "/data/ietf-interfaces/interfaces"
    requires incoming == Url("", "", "/restconf" + rest, "depth=2", "")
    ensures TargetUrl(base, incoming) == Url("http", "localhost:8080", "/restconf" + rest, "depth=2", "")
  {
    TargetPathCases("/restconf/", rest);
    TargetPathIgnoresTrailingSlashes("/restconf", 1, RestconfPrefix + rest);
    assert "/restconf" + Slashes(1) == "/restconf/";
    assert TrimRightChar("/restconf", '/') == "/restconf";
  }

  // ---------------------------------------------------------------------
  // copyHeaders
  // ---------------------------------------------------------------------

  /** The test that skips the Host header: the name, lower-cased, is "host". */
  predicate IsHostKey(k: string) {
    ToLower(k) == "host"
  }

  /** The values `copyHeaders` appends under `k`. */
  function CopiedValues(src: Fields, k: string): seq<string> {
    if IsHostKey(k) then [] else Values(src, k)
  }

  /** `dst` after `copyHeaders(src, dst)`: every non-Host name of `src`
      with at least one value gets all of its values, in order, after the
      values `dst` already had; every other name of `dst` is as it was. */
  function CopiedInto(src: Fields, dst: Fields): (r: Fields)
    ensures forall k :: Values(r, k) == Values(dst, k) + CopiedValues(src, k)
    ensures forall k :: k in r <==> (k in dst || CopiedValues(src, k) != [])
  {
    map k | k in dst.Keys + src.Keys && (k in dst || CopiedValues(src, k) != []) :: Values(dst, k) + CopiedValues(src, k)
  }

  /** Two headers with the same names and the same values are equal. */
  lemma SameFields(a: Fields, b: Fields)
    requires forall x :: (x in a <==> x in b) && Values(a, x) == Values(b, x)
    ensures a == b
  {
    forall x | x in a ensures a[x] == b[x] {
      assert Values(a, x) == Values(b, x);
    }
  }

  /** `m` with `vs` appended to the values under `k`, one `Add` at a time. */
  function Appended(m: Fields, k: string, vs: seq<string>): Fields {
    if vs == [] then m else m[k := Values(m, k) + vs]
  }

  lemma CopiedValuesOneMore(src: Fields, k: string, vs: seq<string>, x: string)
    requires k !in src
    ensures CopiedValues(src[k := vs], x) ==
      if x != k then CopiedValues(src, x) else if IsHostKey(k) then [] else vs
    ensures x == k ==> CopiedValues(src, x) == []
  {
  }

  /** The header after copying one more source name, as one run of appends. */
  function CopiedOneMore(src: Fields, dst: Fields, k: string, vs: seq<string>): Fields {
    if IsHostKey(k) then CopiedInto(src, dst) else Appended(CopiedInto(src, dst), k, vs)
  }

  lemma CopiedIntoOneMoreAt(src: Fields, dst: Fields, k: string, vs: seq<string>, x: string)
    requires k !in src
    ensures x in CopiedInto(src[k := vs], dst) <==> x in CopiedOneMore(src, dst, k, vs)
    ensures Values(CopiedInto(src[k := vs], dst), x) == Values(CopiedOneMore(src, dst, k, vs), x)
  {
    CopiedValuesOneMore(src, k, vs, x);
    var c := CopiedInto(src, dst);
    assert Values(c, x) == Values(dst, x) + CopiedValues(src, x);
    if IsHostKey(k) {
      assert CopiedValues(src[k := vs], x) == CopiedValues(src, x);
    } else if x != k {
      assert CopiedValues(src[k := vs], x) == CopiedValues(src, x);
      AppendedElsewhere(c, k, vs, x);
    } else {
      assert CopiedValues(src[k := vs], x) == vs;
      assert Values(dst, x) + [] == Values(dst, x);
    }
  }

  /** Appending under `k` leaves `x` alone when `x` is a different name or
      nothing is appended. */
  lemma AppendedElsewhere(m: Fields, k: string, vs: seq<string>, x: string)
    requires x != k || vs == []
    ensures (x in Appended(m, k, vs) <==> x in m) && Values(Appended(m, k, vs), x) == Values(m, x)
  {
  }

  /** Copying one more source name is one more run of appends. */
  lemma CopiedIntoOneMore(src: Fields, dst: Fields, k: string, vs: seq<string>)
    requires k !in src
    ensures CopiedInto(src[k := vs], dst) == if IsHostKey(k) then CopiedInto(src, dst) else Appended(CopiedInto(src, dst), k, vs)
  {
    var lhs := CopiedInto(src[k := vs], dst);
    var rhs := CopiedOneMore(src, dst, k, vs);
    forall x ensures (x in lhs <==> x in rhs) && Values(lhs, x) == Values(rhs, x) {
      CopiedIntoOneMoreAt(src, dst, k, vs, x);
    }
    SameFields(lhs, rhs);
  }

  /** The inner loop of `copyHeaders`: one `Add` per value of `vv`, in order. */
  method AddAll(dst: Header, k: string, vv: seq<string>)
    requires dst.Valid() && CanonicalKey(k) == k
    modifies dst
    ensures dst.Valid()
    ensures dst.fields == Appended(old(dst.fields), k, vv)
  {
    var j := 0;
    while j < |vv|
      invariant 0 <= j <= |vv|
      invariant dst.Valid()
      invariant dst.fields == Appended(old(dst.fields), k, vv[..j])
    {
      dst.Add(k, vv[j]);
      AppendedOneMore(old(dst.fields), k, vv, j);
      j := j + 1;
    }
    assert vv[..|vv|] == vv;
  }

  /** `copyHeaders`: Go visits the names of `src` in no fixed order, which
      the nondeterministic choice of `k` stands for; every order ends in
      the same header. */
  method CopyHeaders(src: Header, dst: Header)
    requires src != dst && src.Valid() && dst.Valid()
    modifies dst
    ensures dst.Valid()
    ensures dst.fields == CopiedInto(src.fields, old(dst.fields))
  {
    var pending := src.fields.Keys;
    CopyingStarts(src.fields, dst.fields);
    while pending != {}
      invariant pending <= src.fields.Keys
      invariant dst.Valid()
      invariant dst.fields == CopiedInto(src.fields - pending, old(dst.fields))
      decreases pending
    {
      var k :| k in pending;
      var vv := src.fields[k];
      if ToLower(k) != "host" {
        AddAll(dst, k, vv);
      }
      CopiedIntoOneMore(src.fields - pending, old(dst.fields), k, vv);
      PendingShrinks(src.fields, pending, k);
      pending := pending - {k};
    }
    assert src.fields - {} == src.fields;
  }

  lemma CopyingStarts(src: Fields, dst: Fields)
    ensures CopiedInto(src - src.Keys, dst) == dst
  {
    var r := CopiedInto(src - src.Keys, dst);
    forall x ensures (x in r <==> x in dst) && Values(r, x) == Values(dst, x) {
    }
    SameFields(r, dst);
  }

  lemma AppendedOneMore(m: Fields, k: string, vs: seq<string>, j: nat)
    requires j < |vs|
    ensures Appended(m, k, vs[..j + 1])
      == Appended(m, k, vs[..j])[k := Values(Appended(m, k, vs[..j]), k) + [vs[j]]]
  {
    var grown := Values(m, k) + vs[..j + 1];
    assert vs[..j + 1] == vs[..j] + [vs[j]];
    assert (Values(m, k) + vs[..j]) + [vs[j]] == grown;
    if j == 0 {
      assert vs[..j] == [];
      assert Values(m, k) + vs[..j] == Values(m, k);
    } else {
      var mid := m[k := Values(m, k) + vs[..j]];
      assert Appended(m, k, vs[..j]) == mid;
      assert mid[k := grown] == m[k := grown];
    }
  }

  lemma PendingShrinks(src: Fields, pending: set<string>, k: string)
    requires k in pending && k in src
    ensures (src - pending)[k := src[k]] == src - (pending - {k})
  {
  }

  /** A Host name is never copied, and the values `dst` had stay in front. */
  lemma CopiedIntoKeepsDestination(src: Fields, dst: Fields, k: string)
    ensures IsHostKey(k) ==> Values(CopiedInto(src, dst), k) == Values(dst, k)
    ensures Values(CopiedInto(src, dst), k)[..|Values(dst, k)|] == Values(dst, k)
  {
  }

  // ---------------------------------------------------------------------
  // Hop-by-hop headers (section 13.5.1 of RFC 2616)
  // ---------------------------------------------------------------------

  const HopHeaders: seq<string> := [
    "Connection", "Keep-Alive", "Proxy-Authenticate", "Proxy-Authorization",
    "TE", "Trailers", "Transfer-Encoding", "Upgrade"
  ]

  /** The names `Del` removes for each of `names`. */
  function CanonicalKeys(names: seq<string>): set<string> {
    set i | 0 <= i < |names| :: CanonicalKey(names[i])
  }

  lemma CanonicalKeysOneMore(names: seq<string>, n: nat)
    requires n < |names|
    ensures CanonicalKeys(names[..n + 1]) == CanonicalKeys(names[..n]) + {CanonicalKey(names[n])}
  {
    var a, b := names[..n + 1], names[..n];
    assert forall i :: 0 <= i < n ==> a[i] == b[i];
    assert a[n] == names[n];
  }

  /** The canonical names of all hop-by-hop headers ("TE" is stored as "Te"). */
  function HopKeys(): set<string> {
    CanonicalKeys(HopHeaders)
  }

  /** A header after the hop-by-hop names are deleted from it: none of them
      is left, and every other name keeps its values. */
  function WithoutHop(h: Fields): (r: Fields)
    ensures forall i :: 0 <= i < |HopHeaders| ==> CanonicalKey(HopHeaders[i]) !in r
    ensures forall k :: k !in HopKeys() ==> Values(r, k) == Values(h, k)
  {
    h - HopKeys()
  }

  /** `for _, h := range hopHeaders { header.Del(h) }`. */
  method RemoveHopHeaders(h: Header)
    requires h.Valid()
    modifies h
    ensures h.Valid()
    ensures h.fields == WithoutHop(old(h.fields))
  {
    for i := 0 to |HopHeaders|
      invariant h.Valid()
      invariant h.fields == old(h.fields) - CanonicalKeys(HopHeaders[..i])
    {
      h.Del(HopHeaders[i]);
      CanonicalKeysOneMore(HopHeaders, i);
    }
    assert HopHeaders[..|HopHeaders|] == HopHeaders;
  }

  /** The stored name "Te" of the TE header is one of the names removed. */
  lemma TeIsHopKey()
    ensures "Te" in HopKeys()
  {
    CanonicalKeyExamples();
    assert HopHeaders[4] == "TE";
  }

  /** The list names "Trailers", as printed in section 13.5.1 of RFC 2616,
      but the field is "Trailer" (section 14.40), so a Trailer header is
      not among the names removed. */
  lemma TrailerIsNotHopKey(k: string)
    requires k == "Trailer"
    ensures k !in HopKeys()
  {
    forall i | 0 <= i < |HopHeaders| ensures CanonicalKey(HopHeaders[i]) != k {
      if i == 7 {
        CanonicalKeyOnlyChangesCase(HopHeaders[i], 0);
      } else {
        assert |HopHeaders[i]| != 7;
      }
    }
  }

  /** The lengths of the hop-by-hop names, which are kept by canonicalisation. */
  lemma HopKeyLengths(k: string)
    requires k in HopKeys()
    ensures |k| in {2, 7, 8, 10, 17, 18, 19}
  {
    var i :| 0 <= i < |HopHeaders| && k == CanonicalKey(HopHeaders[i]);
    assert i in {0, 1, 2, 3, 4, 5, 6, 7};
  }

  // ---------------------------------------------------------------------
  // Upstream request headers
  // ---------------------------------------------------------------------

  /** The stored names of Authorization and Accept, already canonical. */
  const AuthorizationKey: string := "Authorization"
  const AcceptKey: string := "Accept"
  const DefaultAccept: string := "application/yang-data+json, application/json"

  /** The value `SetBasicAuth` stores; `encode` stands for standard base64
      over the UTF-8 bytes, which is not modelled. */
  function BasicAuth(user: string, pass: string, encode: string -> string): string {
    "Basic " + encode(user + ":" + pass)
  }

  /** The headers sent upstream for an incoming request with headers
      `incoming`: copied into a new, empty header, hop-by-hop names removed,
      Authorization dropped unless forwarding is on, replaced by basic
      credentials when an upstream user is configured, and a default Accept
      filled in when the first Accept value is empty or there is none. */
  function UpstreamHeaders(incoming: Fields, upUser: string, upPass: string, forwardAuth: bool,
                           encode: string -> string): (r: Fields)
    ensures forall k :: k in r ==> k in incoming || k == AuthorizationKey || k == AcceptKey
  {
    var copied := WithoutHop(CopiedInto(incoming, map[]));
    var authorized := if forwardAuth then copied else copied - {AuthorizationKey};
    var credentialed :=
      if upUser != "" then authorized[AuthorizationKey := [BasicAuth(upUser, upPass, encode)]] else authorized;
    if FirstValue(credentialed, AcceptKey) == "" then credentialed[AcceptKey := [DefaultAccept]]
    else credentialed
  }

  /** `Del("Authorization")` and `Set("Authorization", …)` act on AuthorizationKey. */
  lemma AuthorizationIsCanonical(k: string)
    requires k == "Authorization"
    ensures CanonicalKey(k) == AuthorizationKey
  {
    assert AllTokenChars(k);
    forall i | 0 <= i < |k| ensures CanonicalCase(k)[i] == k[i] {
      if StartsWord(k, i) { assert i == 0; }
    }
  }

  /** `Get("Accept")` and `Set("Accept", …)` act on AcceptKey. */
  lemma AcceptIsCanonical(k: string)
    requires k == "Accept"
    ensures CanonicalKey(k) == AcceptKey
  {
    assert AllTokenChars(k);
    forall i | 0 <= i < |k| ensures CanonicalCase(k)[i] == k[i] {
      if StartsWord(k, i) { assert i == 0; }
    }
  }

  /** Authorization and Accept are neither hop-by-hop names, Host, nor each other. */
  lemma SpecialKeysDistinct()
    ensures AuthorizationKey !in HopKeys() && AcceptKey !in HopKeys()
    ensures !IsHostKey(AuthorizationKey) && !IsHostKey(AcceptKey)
    ensures AuthorizationKey != AcceptKey
  {
    assert |AuthorizationKey| == 13 && |AcceptKey| == 6;
    if AuthorizationKey in HopKeys() { HopKeyLengths(AuthorizationKey); }
    if AcceptKey in HopKeys() { HopKeyLengths(AcceptKey); }
  }

  /** After the hop-by-hop `Del` loop and the Authorization and Accept
      rules, no hop-by-hop name and no Host name reaches upstream. */
  lemma UpstreamHasNoHopOrHost(incoming: Fields, upUser: string, upPass: string, forwardAuth: bool,
                               encode: string -> string)
    ensures forall i :: 0 <= i < |HopHeaders| ==>
      CanonicalKey(HopHeaders[i]) !in UpstreamHeaders(incoming, upUser, upPass, forwardAuth, encode)
    ensures forall k :: IsHostKey(k) ==> k !in UpstreamHeaders(incoming, upUser, upPass, forwardAuth, encode)
  {
    SpecialKeysDistinct();
    var out := UpstreamHeaders(incoming, upUser, upPass, forwardAuth, encode);
    forall i | 0 <= i < |HopHeaders| ensures CanonicalKey(HopHeaders[i]) !in out {
      assert CanonicalKey(HopHeaders[i]) in HopKeys();
    }
  }

  /** The Authorization rules: configured upstream credentials always win;
      otherwise the incoming values are forwarded exactly when forwarding
      is on, and dropped when it is off. */
  lemma UpstreamAuthorization(incoming: Fields, upUser: string, upPass: string, forwardAuth: bool,
                              encode: string -> string)
    ensures upUser != "" ==>
      Values(UpstreamHeaders(incoming, upUser, upPass, forwardAuth, encode), AuthorizationKey)
      == [BasicAuth(upUser, upPass, encode)]
    ensures upUser == "" && !forwardAuth ==>
      AuthorizationKey !in UpstreamHeaders(incoming, upUser, upPass, forwardAuth, encode)
    ensures upUser == "" && forwardAuth ==>
      Values(UpstreamHeaders(incoming, upUser, upPass, forwardAuth, encode), AuthorizationKey)
      == Values(incoming, AuthorizationKey)
  {
    SpecialKeysDistinct();
  }

  /** The Accept rule: the default is set only when the first Accept value
      is empty or there is none; otherwise the incoming values stay. */
  lemma UpstreamAccept(incoming: Fields, upUser: string, upPass: string, forwardAuth: bool,
                       encode: string -> string)
    ensures Values(UpstreamHeaders(incoming, upUser, upPass, forwardAuth, encode), AcceptKey)
      == if FirstValue(incoming, AcceptKey) == "" then [DefaultAccept] else Values(incoming, AcceptKey)
  {
    SpecialKeysDistinct();
  }

  /** For a header whose names are canonical, as Go's server delivers
      every incoming header, the upstream header's names are canonical too. */
  lemma UpstreamHeadersCanonical(incoming: Fields, upUser: string, upPass: string, forwardAuth: bool,
                                 encode: string -> string)
    requires CanonicalFields(incoming)
    ensures CanonicalFields(UpstreamHeaders(incoming, upUser, upPass, forwardAuth, encode))
  {
    var r := UpstreamHeaders(incoming, upUser, upPass, forwardAuth, encode);
    forall k | k in r ensures CanonicalKey(k) == k {
      if k == AuthorizationKey {
        AuthorizationIsCanonical(k);
      } else if k == AcceptKey {
        AcceptIsCanonical(k);
      }
    }
  }

  /** A Trailer header goes upstream with its incoming values. */
  lemma TrailerIsForwarded(k: string, incoming: Fields, upUser: string, upPass: string, forwardAuth: bool,
                           encode: string -> string)
    requires k == "Trailer"
    ensures Values(UpstreamHeaders(incoming, upUser, upPass, forwardAuth, encode), k) == Values(incoming, k)
  {
    TrailerIsNotHopKey(k);
    assert |ToLower(k)| == 7;
    assert |k| != |AuthorizationKey| && |k| != |AcceptKey|;
    UpstreamOtherHeaders(incoming, upUser, upPass, forwardAuth, encode, k);
  }

  /** Every other name is forwarded with exactly its incoming values. */
  lemma UpstreamOtherHeaders(incoming: Fields, upUser: string, upPass: string, forwardAuth: bool,
                             encode: string -> string, k: string)
    requires k !in HopKeys() && !IsHostKey(k) && k != AuthorizationKey && k != AcceptKey
    ensures Values(UpstreamHeaders(incoming, upUser, upPass, forwardAuth, encode), k) == Values(incoming, k)
  {
    var copied := WithoutHop(CopiedInto(incoming, map[]));
    assert Values(copied, k) == Values(incoming, k);
  }

  /** The header rules of `makeProxyHandler`: the upstream request's header,
      built in the request's fresh (empty) header object by copying, the
      hop-by-hop `Del` loop, the Authorization rules and the Accept default. */
  method ForwardRequestHeaders(incoming: Header, upUser: string, upPass: string, forwardAuth: bool,
                               encode: string -> string) returns (req: Header)
    requires incoming.Valid()
    ensures fresh(req) && req.Valid()
    ensures req.fields == UpstreamHeaders(incoming.fields, upUser, upPass, forwardAuth, encode)
  {
    AuthorizationIsCanonical("Authorization");
    AcceptIsCanonical("Accept");
    req := new Header();
    CopyHeaders(incoming, req);
    RemoveHopHeaders(req);
    if !forwardAuth {
      req.Del("Authorization");
    }
    if upUser != "" {
      req.Set("Authorization", BasicAuth(upUser, upPass, encode));
    }
    var accept := req.Get("Accept");
    if accept == "" {
      req.Set("Accept", DefaultAccept);
    }
  }

  /** The response side of `makeProxyHandler`: hop-by-hop names are deleted
      from the upstream response and what remains is copied into the client
      response's header. */
  method ForwardResponseHeaders(resp: Header, w: Header)
    requires resp != w && resp.Valid() && w.Valid()
    modifies resp, w
    ensures resp.Valid() && w.Valid()
    ensures resp.fields == WithoutHop(old(resp.fields))
    ensures w.fields == CopiedInto(WithoutHop(old(resp.fields)), old(w.fields))
  {
    RemoveHopHeaders(resp);
    CopyHeaders(resp, w);
  }

  /** The proxied response carries a hop-by-hop name only if the client
      response already had it before the copy; the upstream's never pass. */
  lemma ResponseHasNoUpstreamHop(resp: Fields, w: Fields)
    ensures forall i :: 0 <= i < |HopHeaders| ==>
      Values(CopiedInto(WithoutHop(resp), w), CanonicalKey(HopHeaders[i])) == Values(w, CanonicalKey(HopHeaders[i]))
  {
  }

  // ---------------------------------------------------------------------
  // filterDump
  // ---------------------------------------------------------------------

  const AuthorizationPrefix: string := "authorization:"
  const Redaction: string := "Authorization: REDACTED"

  /** A dump line that carries credentials: trimmed of white space and
      lower-cased, it starts with "authorization:". */
  predicate IsAuthorizationLine(line: string) {
    HasPrefix(ToLower(TrimSpace(line)), AuthorizationPrefix)
  }

  /** The only white space that matters is leading: a line is an
      Authorization line exactly when, after its leading white space, its
      first 14 characters spell "authorization:" in any case. */
  lemma AuthorizationLineIff(line: string)
    ensures IsAuthorizationLine(line) <==>
      var t := TrimLeftSpace(line);
      |t| >= |AuthorizationPrefix| && ToLower(t[..|AuthorizationPrefix|]) == AuthorizationPrefix
  {
    var t := TrimLeftSpace(line);
    var u := TrimRightSpace(t);
    var n := |AuthorizationPrefix|;
    TrimRightSpaceShape(t);
    if IsAuthorizationLine(line) {
      assert ToLower(t[..n]) == AuthorizationPrefix by {
        assert forall i :: 0 <= i < n ==> ToLower(t[..n])[i] == ToLower(u)[i];
      }
    }
    if |t| >= n && ToLower(t[..n]) == AuthorizationPrefix {
      assert LowerChar(t[n - 1]) == ':' by { assert ToLower(t[..n])[n - 1] == ':'; }
      assert !IsSpace(t[n - 1]);
      assert |u| >= n;
      assert ToLower(u)[..n] == AuthorizationPrefix by {
        assert forall i :: 0 <= i < n ==> ToLower(u)[i] == ToLower(t[..n])[i];
      }
    }
  }

  /** The lower-cased redaction line, character by character. */
  lemma LowerRedactionSpelled(s: string)
    requires s == "Authorization: REDACTED"
    ensures var l := ToLower(s);
      |l| >= 14 && l[0] == 'a' && l[1] == 'u' && l[2] == 't' && l[3] == 'h' && l[4] == 'o'
      && l[5] == 'r' && l[6] == 'i' && l[7] == 'z' && l[8] == 'a' && l[9] == 't'
      && l[10] == 'i' && l[11] == 'o' && l[12] == 'n' && l[13] == ':'
  {
  }

  /** A string spelling "authorization:" in its first 14 characters starts with it. */
  lemma SpellsAuthorizationPrefix(l: string)
    requires |l| >= 14 && l[0] == 'a' && l[1] == 'u' && l[2] == 't' && l[3] == 'h' && l[4] == 'o'
    requires l[5] == 'r' && l[6] == 'i' && l[7] == 'z' && l[8] == 'a' && l[9] == 't'
    requires l[10] == 'i' && l[11] == 'o' && l[12] == 'n' && l[13] == ':'
    ensures HasPrefix(l, AuthorizationPrefix)
  {
  }

  /** The replacement line passes the test itself, so it maps to itself. */
  lemma RedactionIsAuthorizationLine()
    ensures IsAuthorizationLine(Redaction)
  {
    RedactionTrimmed(Redaction);
    LowerRedactionSpelled(Redaction);
    SpellsAuthorizationPrefix(ToLower(Redaction));
  }

  /** The redaction line has no white space to trim. */
  lemma RedactionTrimmed(s: string)
    requires s == "Authorization: REDACTED"
    ensures TrimSpace(s) == s
  {
    assert !IsSpace(s[0]) && !IsSpace(s[|s| - 1]);
    assert TrimLeftSpace(s) == s;
  }

  /** One line of the dump after the loop body ran on it. */
  function RedactLine(line: string): string {
    if IsAuthorizationLine(line) then Redaction else line
  }

  /** Every line redacted, in place. */
  function RedactLines(lines: seq<string>): (r: seq<string>)
    ensures |r| == |lines|
    ensures forall i :: 0 <= i < |lines| ==> r[i] == RedactLine(lines[i])
  {
    seq(|lines|, i requires 0 <= i < |lines| => RedactLine(lines[i]))
  }

  /** What `filterDump` returns: the dump split at "\n", every
      Authorization line replaced, joined again with "\n". */
  function RedactDump(dump: string): (r: string)
    ensures Count(r, '\n') == Count(dump, '\n')
  {
    assert '\n' !in Redaction;
    Join(RedactLines(Split(dump, '\n')), '\n')
  }

  /** `filterDump`: overwrites the Authorization lines of the split dump in place. */
  method FilterDump(dump: string) returns (filtered: string)
    ensures filtered == RedactDump(dump)
  {
    var parts := Split(dump, '\n');
    var lines := new string[|parts|](i requires 0 <= i < |parts| => parts[i]);
    var i := 0;
    while i < lines.Length
      invariant 0 <= i <= lines.Length == |parts|
      invariant lines[..i] == RedactLines(parts[..i])
      invariant lines[i..] == parts[i..]
    {
      if IsAuthorizationLine(lines[i]) {
        lines[i] := Redaction;
      }
      RedactLinesOneMore(parts, i);
      i := i + 1;
    }
    assert parts[..|parts|] == parts;
    assert lines[..] == lines[..i];
    filtered := Join(lines[..], '\n');
  }

  /** Redacting one more line extends the redacted prefix by that line. */
  lemma RedactLinesOneMore(parts: seq<string>, i: nat)
    requires i < |parts|
    ensures RedactLines(parts[..i + 1]) == RedactLines(parts[..i]) + [RedactLine(parts[i])]
  {
  }

  /** The redacted dump has as many lines as the dump; each Authorization
      line is now exactly the redaction line and every other line is
      unchanged. */
  lemma RedactDumpLines(dump: string)
    ensures |Split(RedactDump(dump), '\n')| == |Split(dump, '\n')|
    ensures forall i :: 0 <= i < |Split(dump, '\n')| ==>
      Split(RedactDump(dump), '\n')[i] == (if IsAuthorizationLine(Split(dump, '\n')[i]) then Redaction else Split(dump, '\n')[i])
  {
    var parts := Split(dump, '\n');
    var lines := RedactLines(parts);
    assert '\n' !in Redaction;
    assert forall i :: 0 <= i < |lines| ==> '\n' !in lines[i];
    SplitOfJoin(lines, '\n');
    assert Split(RedactDump(dump), '\n') == lines;
  }

  /** Redacting twice gives the same dump as redacting once. */
  lemma RedactDumpIdempotent(dump: string)
    ensures RedactDump(RedactDump(dump)) == RedactDump(dump)
  {
    var lines := RedactLines(Split(dump, '\n'));
    assert '\n' !in Redaction;
    SplitOfJoin(lines, '\n');
    RedactionIsAuthorizationLine();
    assert RedactLines(lines) == lines;
  }
}
