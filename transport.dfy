/** Request routing of `sendAsync`: path normalisation, the choice between
    the encrypted tunnel and direct HTTPS, and the shape of the HTTPS request.
    The network itself, gzip and JSON serialisation are not modelled: the
    request is returned as a value. */
module Transport {
  import opened Base

  /** The `data` argument of `sendAsync`; its JSON text is left abstract. */
  datatype Payload = Payload(json: string)

  datatype HttpMethod = Get | Post

  datatype Header = Header(name: string, value: string)

  datatype Request =
    /** Handed to the encrypted-tunnel collaborator with the target, the
        normalised path and `data` unchanged. */
    | Tunnel(target: string, path: string, data: Option<Payload>)
    /** A direct HTTPS request; `gzippedBody` is the payload whose JSON text
        is sent gzip-compressed. */
    | Https(url: string, verb: HttpMethod, headers: seq<Header>,
            contentType: Option<string>, gzippedBody: Option<Payload>)

  const HttpsPrefix := "https:"
  const JsonContentType := "application/json;charset=utf8"

  /** `path.replace(/^\/+/, "")`: drop every leading `/`. The result is the
      suffix of `path` left after a run of slashes, and it does not itself
      start with a slash, which pins it down uniquely. */
  function StripLeadingSlashes(path: string): (r: string)
    ensures |r| <= |path| && r == path[|path| - |r|..]
    ensures AllSlashes(path[..|path| - |r|])
    ensures r == [] || r[0] != '/'
  {
    if path != [] && path[0] == '/' then StripLeadingSlashes(path[1..]) else path
  }

  predicate AllSlashes(s: string) {
    forall i :: 0 <= i < |s| ==> s[i] == '/'
  }

  predicate HasHeader(headers: seq<Header>, name: string, value: string) {
    Header(name, value) in headers
  }

  /** What `sendAsync(path, data)` sends for the process-wide `target`;
      `data` is `None` when the argument is falsy (the default `null`). */
  function Route(target: string, path: string, data: Option<Payload>): (r: Request)
    ensures r.Tunnel? <==> !StartsWith(target, HttpsPrefix)
    ensures r.Tunnel? ==> (r.target == target && r.data == data
                           && r.path == StripLeadingSlashes(path))
    ensures r.Https? ==> r.url == target + "/" + StripLeadingSlashes(path)
    ensures r.Https? ==> (r.verb == Post <==> data.Some?) && r.gzippedBody == data
    ensures r.Https? ==> HasHeader(r.headers, "accept-encoding", "gzip")
    ensures r.Https? ==> (HasHeader(r.headers, "content-encoding", "gzip") <==> data.Some?)
    ensures r.Https? ==> r.contentType == if data.Some? then Some(JsonContentType) else None
  {
    var p := StripLeadingSlashes(path);
    if !StartsWith(target, HttpsPrefix) then
      Tunnel(target, p, data)
    else
      var accept := [Header("accept-encoding", "gzip")];
      if data.Some? then
        Https(target + "/" + p, Post, accept + [Header("content-encoding", "gzip")],
              Some(JsonContentType), data)
      else
        Https(target + "/" + p, Get, accept, None, None)
  }

  /** Normalising twice is normalising once. */
  lemma StripIdempotent(path: string)
    ensures StripLeadingSlashes(StripLeadingSlashes(path)) == StripLeadingSlashes(path)
  {
  }

  /** Any number of leading slashes before the path leads to the same request. */
  lemma {:induction false} LeadingSlashesIgnored(target: string, slashes: nat, path: string, data: Option<Payload>)
    ensures Route(target, Slashes(slashes) + path, data) == Route(target, path, data)
  {
    StripAfterSlashes(slashes, path);
  }

  function Slashes(n: nat): (s: string)
    ensures |s| == n
  {
    if n == 0 then "" else "/" + Slashes(n - 1)
  }

  lemma {:induction false} StripAfterSlashes(n: nat, path: string)
    ensures StripLeadingSlashes(Slashes(n) + path) == StripLeadingSlashes(path)
  {
    var s := Slashes(n) + path;
    if n == 0 {
      assert s == path;
    } else {
      var rest := Slashes(n - 1) + path;
      assert s[0] == '/' && s[1..] == rest;
      StripAfterSlashes(n - 1, path);
    }
  }

  /** The path the remote end sees never starts with a slash, on either route. */
  lemma RoutedPathHasNoLeadingSlash(target: string, path: string, data: Option<Payload>)
    ensures var r := Route(target, path, data);
      if r.Tunnel? then r.path == [] || r.path[0] != '/'
      else exists p :: r.url == target + "/" + p && (p == [] || p[0] != '/')
  {
    var r := Route(target, path, data);
    if r.Https? {
      var p := StripLeadingSlashes(path);
      assert r.url == target + "/" + p;
    }
  }
}
