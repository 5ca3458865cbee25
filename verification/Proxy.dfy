/** Admission and forwarding: which requests leave, and what leaves in their name. */
module Proxy {
  import opened Common
  import opened Headers

  /** `escapedPath` is what URL.EscapedPath reports for the parsed URL. */
  datatype URL = URL(
    scheme: string, host: string, nonHierarchical: string, fragment: string,
    path: string, rawPath: string, escapedPath: string, rawQuery: string)

  /** A request as a value: all that admission looks at. */
  datatype Inbound = Inbound(verb: string, url: URL, requestURI: string, fields: Fields)

  predicate IsSlash(c: char) {
    c == '/'
  }

  predicate IsQuestionMark(c: char) {
    c == '?'
  }

  /** path.Clean(p) == p for a rooted path. */
  predicate IsClean(p: string) {
    p == "/" || (p != "" && p[0] == '/' &&
      forall segment | segment in SplitOn(p[1..], IsSlash) :: segment != "" && segment != "." && segment != "..")
  }

  function Canonical(r: Inbound): Option<string> {
    var u := r.url;
    if u.scheme != "" || u.host != "" || u.nonHierarchical != "" || u.fragment != "" || u.rawPath != "" then None
    else if u.path == "" || u.path[0] != '/' || !IsClean(u.path) || u.escapedPath != u.path then None
    else if r.requestURI != "" && SplitOn(r.requestURI, IsQuestionMark)[0] != u.path then None
    else Some(u.path)
  }

  function Bearer(token: string): string {
    "Bearer " + token
  }

  predicate Authorized(fields: Fields, token: string) {
    var key := CanonicalKey("Authorization");
    key in fields && fields[key] == [Bearer(token)]
  }

  datatype Action =
    | NotFound
    | MethodNotAllowed
    | Unauthorized
    | Alive
    | Attest
    | UpstreamStatusUnavailable
    | Metrics
    | Forward(upstreamPath: string)

  predicate IsManagement(p: string) {
    || p == "/pig/metrics" || p == "/v1/metrics" || p == "/v1/upstream-status"
    || p == "/admin/v1/predictive-policy" || p == "/admin/v1/predictive-profile"
    || p == "/v1/attestation/report"
  }

  predicate IsPublic(verb: string, p: string) {
    || (verb == "POST" &&
         (p == "/v1/chat/completions" || p == "/v1/completions" || p == "/v1/responses"
          || p == "/v1/systemone" || p == "/v1/embeddings"))
    || (verb == "GET" && p == "/v1/models")
  }

  function Manage(verb: string, p: string): Action {
    if p == "/v1/attestation/report" then Attest
    else if p == "/admin/v1/predictive-policy" then
      if verb != "GET" && verb != "PATCH" then MethodNotAllowed else Forward(p)
    else if verb != "GET" then MethodNotAllowed
    else if p == "/admin/v1/predictive-profile" then Forward(p)
    else if p == "/v1/upstream-status" then UpstreamStatusUnavailable
    else if p == "/pig/metrics" then Metrics
    else Forward("/metrics")
  }

  /** The decisions of ServeHTTP, in its order. */
  function Route(r: Inbound, token: string): Action {
    var canonical := Canonical(r);
    if canonical.None? then NotFound
    else
      var p := canonical.value;
      if p == "/healthz" then (if r.verb != "GET" then MethodNotAllowed else Alive)
      else if !IsManagement(p) && !IsPublic(r.verb, p) then NotFound
      else if !Authorized(r.fields, token) then Unauthorized
      else if IsManagement(p) then Manage(r.verb, p)
      else Forward(p)
  }

  /** The documented allowlist: verb, path asked for, path sent upstream. */
  const ALLOWED: seq<(string, string, string)> := [
    ("POST", "/v1/chat/completions", "/v1/chat/completions"),
    ("POST", "/v1/completions", "/v1/completions"),
    ("POST", "/v1/responses", "/v1/responses"),
    ("POST", "/v1/systemone", "/v1/systemone"),
    ("POST", "/v1/embeddings", "/v1/embeddings"),
    ("GET", "/v1/models", "/v1/models"),
    ("GET", "/v1/metrics", "/metrics"),
    ("GET", "/admin/v1/predictive-policy", "/admin/v1/predictive-policy"),
    ("PATCH", "/admin/v1/predictive-policy", "/admin/v1/predictive-policy"),
    ("GET", "/admin/v1/predictive-profile", "/admin/v1/predictive-profile")]

  /** The one header value that authenticates a request. */
  ghost predicate CarriesToken(fields: Fields, token: string) {
    "Authorization" in fields && fields["Authorization"] == ["Bearer " + token]
  }

  lemma AuthorizedMeaning(fields: Fields, token: string)
    ensures Authorized(fields, token) <==> CarriesToken(fields, token)
  {
    AuthorizationKey();
  }

  /** Nothing is forwarded but canonical requests on the allowlist whose Authorization header has
      exactly one value, the configured bearer token; and all of those are. */
  lemma ForwardedIffAllowed(r: Inbound, token: string, upstreamPath: string)
    ensures Route(r, token) == Forward(upstreamPath) <==>
            && Canonical(r).Some?
            && "Authorization" in r.fields && r.fields["Authorization"] == ["Bearer " + token]
            && (r.verb, Canonical(r).value, upstreamPath) in ALLOWED
  {
    AuthorizedMeaning(r.fields, token);
    var canonical := Canonical(r);
    if canonical.Some? {
      AllowedMeaning(r.verb, canonical.value, upstreamPath);
    }
  }

  /** What every other request gets. */
  lemma Refusals(r: Inbound, token: string)
    requires Canonical(r).Some?
    ensures var p, verb, action := Canonical(r).value, r.verb, Route(r, token);
            var getOnly := p == "/admin/v1/predictive-profile" || p == "/v1/upstream-status"
                           || p == "/pig/metrics" || p == "/v1/metrics";
            var management := getOnly || p == "/admin/v1/predictive-policy" || p == "/v1/attestation/report";
            var inference := p == "/v1/chat/completions" || p == "/v1/completions" || p == "/v1/responses"
                             || p == "/v1/systemone" || p == "/v1/embeddings";
            var served := management || (inference && verb == "POST") || (p == "/v1/models" && verb == "GET");
            var trusted := CarriesToken(r.fields, token);
            && (action == NotFound <==> p != "/healthz" && !served)
            && (action == Alive <==> p == "/healthz" && verb == "GET")
            && (action == Unauthorized <==> served && !trusted)
            && (action == MethodNotAllowed <==>
                  || (p == "/healthz" && verb != "GET")
                  || (trusted && getOnly && verb != "GET")
                  || (trusted && p == "/admin/v1/predictive-policy" && verb != "GET" && verb != "PATCH"))
            && (action == Attest <==> trusted && p == "/v1/attestation/report")
            && (action == UpstreamStatusUnavailable <==> trusted && p == "/v1/upstream-status" && verb == "GET")
            && (action == Metrics <==> trusted && p == "/pig/metrics" && verb == "GET")
  {
    AuthorizedMeaning(r.fields, token);
  }

  /** A request on the allowlist without that header is refused as unauthorised. */
  lemma UnauthorizedIffTokenMissing(r: Inbound, token: string, upstreamPath: string)
    requires Canonical(r).Some? && (r.verb, Canonical(r).value, upstreamPath) in ALLOWED
    ensures Route(r, token) == Unauthorized <==>
            !("Authorization" in r.fields && r.fields["Authorization"] == ["Bearer " + token])
  {
    AuthorizedMeaning(r.fields, token);
    AllowedMeaning(r.verb, Canonical(r).value, upstreamPath);
  }

  // ---- which requests are canonical ----

  ghost predicate IsSegment(segment: string) {
    segment != "" && segment != "." && segment != ".." && '/' !in segment
  }

  ghost predicate IsRooted(p: string, segments: seq<string>) {
    && segments != []
    && (forall segment :: segment in segments ==> IsSegment(segment))
    && p == "/" + Join(segments, '/')
  }

  /** A clean path is the root, or segments each after a slash, none empty, `.` or `..`. */
  lemma CleanMeaning(p: string)
    ensures IsClean(p) <==> p == "/" || exists segments :: IsRooted(p, segments)
  {
    if IsClean(p) && p != "/" {
      var segments := SplitOn(p[1..], IsSlash);
      SplitRoundTrip(p[1..], IsSlash, '/');
      assert IsRooted(p, segments);
    }
    if segments :| IsRooted(p, segments) {
      SplitUnique(segments, IsSlash, '/');
      assert p[1..] == Join(segments, '/');
    }
  }

  lemma BeforeQuery(uri: string, p: string)
    ensures SplitOn(uri, IsQuestionMark)[0] == p <==>
            '?' !in p && (uri == p || exists query :: uri == p + "?" + query)
  {
    var i := IndexOf(uri, IsQuestionMark);
    if SplitOn(uri, IsQuestionMark)[0] == p {
      assert p == uri[..i];
      if i < |uri| {
        assert uri == p + "?" + uri[i + 1..];
      }
    }
    if '?' !in p && uri == p {
      IndexOfFirst(p, "", IsQuestionMark, '?');
    }
    if query :| '?' !in p && uri == p + "?" + query {
      IndexOfFirst(p, query, IsQuestionMark, '?');
    }
  }

  /** The path admission goes by: the request names no other authority, fragment or escaping, the path
      is clean and is its own escaped form, and the request line, if known, is it with at most a query. */
  lemma CanonicalMeaning(r: Inbound, p: string)
    ensures Canonical(r) == Some(p) <==>
            && r.url.scheme == "" && r.url.host == "" && r.url.nonHierarchical == "" && r.url.fragment == ""
            && r.url.rawPath == "" && r.url.path == p && r.url.escapedPath == p && IsClean(p)
            && (r.requestURI != "" ==>
                  '?' !in p && (r.requestURI == p || exists query :: r.requestURI == p + "?" + query))
  {
    BeforeQuery(r.requestURI, r.url.path);
  }

  lemma AllowedMeaning(verb: string, p: string, upstreamPath: string)
    ensures (verb, p, upstreamPath) in ALLOWED <==>
            p != "/healthz" &&
            if IsManagement(p) then Manage(verb, p) == Forward(upstreamPath)
            else IsPublic(verb, p) && upstreamPath == p
  {
  }

  lemma ForwardPath(r: Inbound, token: string)
    requires Route(r, token).Forward?
    ensures r.url.path != "" && r.url.path[0] == '/'
    ensures Route(r, token).upstreamPath == if r.url.path == "/v1/metrics" then "/metrics" else r.url.path
  {
  }

  // ---- forwarding ----

  /** The fixed backend origin New accepts: its path is empty or "/". */
  datatype Origin = Origin(scheme: string, host: string, path: string)

  predicate IsOrigin(target: Origin) {
    && (target.scheme == "http" || target.scheme == "https")
    && target.host != ""
    && (target.path == "" || target.path == "/")
  }

  /** Names httputil.ReverseProxy drops before it calls Rewrite. */
  const FORWARDING: seq<string> := ["Forwarded", "X-Forwarded-For", "X-Forwarded-Host", "X-Forwarded-Proto"]

  /** httputil's singleJoiningSlash */
  function JoinSlash(a: string, b: string): string {
    var aslash, bslash := a != "" && a[|a| - 1] == '/', b != "" && b[0] == '/';
    if aslash && bslash then a + b[1..]
    else if !aslash && !bslash then a + "/" + b
    else a + b
  }

  lemma JoinKeepsPath(target: Origin, p: string)
    requires IsOrigin(target) && p != "" && p[0] == '/'
    ensures JoinSlash(target.path, p) == p
  {
    assert "/" + p[1..] == p;
    assert "" + p == p;
  }

  class Request {
    const verb: string
    const requestURI: string
    var url: URL
    var host: string
    const header: Header

    constructor (verb: string, requestURI: string, url: URL, host: string, header: Header)
      ensures this.verb == verb && this.requestURI == requestURI && this.url == url && this.host == host
      ensures this.header == header
    {
      this.verb, this.requestURI, this.url, this.host, this.header := verb, requestURI, url, host, header;
    }

    ghost function View(): Inbound
      reads this, header
    {
      Inbound(verb, url, requestURI, header.fields)
    }

    /** http.Request.Clone: the header map is copied, not shared. */
    method Clone() returns (copy: Request)
      ensures fresh(copy) && fresh(copy.header)
      ensures copy.View() == View() && copy.host == host
    {
      var fields := new Header(header.fields);
      copy := new Request(verb, requestURI, url, host, fields);
    }
  }

  class Handler {
    const token: string
    const target: Origin
    var inflight: int
    var forwarded: nat

    constructor (token: string, target: Origin)
      requires IsOrigin(target)
      ensures this.token == token && this.target == target && inflight == 0 && forwarded == 0
    {
      this.token, this.target, inflight, forwarded := token, target, 0, 0;
    }

    /** The Rewrite hook, whatever the proxy has made of `outgoing` so far. */
    method Rewrite(incoming: Request, outgoing: Request)
      requires incoming != outgoing
      requires IsOrigin(target) && outgoing.url.path != "" && outgoing.url.path[0] == '/'
      modifies outgoing, outgoing.header
      ensures outgoing.url.scheme == target.scheme && outgoing.url.host == outgoing.host == target.host
      ensures outgoing.url.path == old(outgoing.url.path)
      ensures outgoing.header.fields == old(outgoing.header.fields)[CanonicalKey("Authorization") := [Bearer(token)]]
      ensures outgoing.url.rawQuery ==
              if incoming.url.path == "/admin/v1/predictive-profile" then incoming.url.rawQuery
              else old(outgoing.url.rawQuery)
    {
      JoinKeepsPath(target, outgoing.url.path);
      outgoing.url := outgoing.url.(scheme := target.scheme, host := target.host,
                                    path := JoinSlash(target.path, outgoing.url.path));
      outgoing.host := "";
      if incoming.url.path == "/admin/v1/predictive-profile" {
        outgoing.url := outgoing.url.(rawQuery := incoming.url.rawQuery);
      }
      outgoing.host := target.host;
      outgoing.header.Set("Authorization", Bearer(token));
    }

    /** What holds of a request sent upstream for `inbound` at path `p`, given what the proxy leaves of
        the query. */
    ghost predicate Sent(out: Request, inbound: Inbound, p: string, cleanedQuery: string)
      reads out, out.header
    {
      && out.verb == inbound.verb
      && out.url.scheme == target.scheme && out.url.host == out.host == target.host
      && out.url.path == p
      && out.url.rawQuery ==
         (if inbound.url.path == "/admin/v1/predictive-profile" then inbound.url.rawQuery else cleanedQuery)
      && "Authorization" in out.header.fields && out.header.fields["Authorization"] == ["Bearer " + token]
      && exists kept :: IsFiltered(inbound.fields, kept)
           && out.header.fields == (kept - CanonicalKeys(FORWARDING))["Authorization" := ["Bearer " + token]]
    }

    /** forward: strip a private copy, count, and let the proxy send its own rewritten copy.
        `cleanedQuery` is what the proxy leaves of the query before Rewrite runs. */
    method ForwardRequest(r: Request, cleanedQuery: string) returns (out: Request)
      requires IsOrigin(target) && r.url.path != "" && r.url.path[0] == '/'
      modifies this`inflight, this`forwarded
      ensures fresh(out) && fresh(out.header)
      ensures Sent(out, r.View(), r.url.path, cleanedQuery)
      ensures forwarded == old(forwarded) + 1 && inflight == old(inflight)
    {
      var inner := r.Clone();
      inner.header.RemoveHopByHopHeaders();
      ghost var kept := inner.header.fields;
      inflight := inflight + 1;
      forwarded := forwarded + 1;
      out := inner.Clone();
      out.header.RemoveHopByHopHeaders();
      FilterIdempotent(r.header.fields, kept, out.header.fields);
      out.header.DelAll(FORWARDING);
      out.url := out.url.(rawQuery := cleanedQuery);
      Rewrite(inner, out);
      AuthorizationKey();
      inflight := inflight - 1;
    }

    /** ServeHTTP: for every request, either nothing is sent and nothing counted, or what is sent
        carries the configured token and no other, goes to the fixed origin at the allowed path, and
        has only end-to-end headers; the inbound request and its headers stay as they were. */
    method Serve(r: Request, cleanedQuery: string) returns (out: Request?)
      requires IsOrigin(target)
      modifies this`inflight, this`forwarded
      ensures out != null <==> Route(r.View(), token).Forward?
      ensures out != null ==>
                && fresh(out) && fresh(out.header)
                && Sent(out, r.View(), Route(r.View(), token).upstreamPath, cleanedQuery)
      ensures forwarded == old(forwarded) + (if out != null then 1 else 0) && inflight == old(inflight)
    {
      var action := Route(Inbound(r.verb, r.url, r.requestURI, r.header.fields), token);
      if !action.Forward? {
        return null;
      }
      ForwardPath(r.View(), token);
      if r.url.path == "/v1/metrics" {
        var moved := r.Clone();
        moved.url := moved.url.(path := "/metrics", rawPath := "");
        out := ForwardRequest(moved, cleanedQuery);
      } else {
        out := ForwardRequest(r, cleanedQuery);
      }
    }
  }
}
