/** The parts of an Addressable::URI the adapters read and write. Parsing a
    string into these parts is Addressable's, and is a parameter wherever an
    adapter parses; rendering and the request-URI are stated here. */
module Uris {
  import opened Values
  import opened Text
  import opened Numerals

  /** A parsed URI; None stands for a component that is nil. */
  datatype Uri = Uri(scheme: Option<string>, host: Option<string>, port: Option<int>, path: string, query: Option<string>)

  /** The `host[:port]` authority, present exactly when there is a host. */
  function Authority(u: Uri): (r: Option<string>)
    ensures r.Some? <==> u.host.Some?
  {
    if u.host.None? then None
    else if u.port.None? then Some(u.host.value)
    else Some(u.host.value + ":" + IntToString(u.port.value))
  }

  /** URI#to_str: `scheme:` when there is a scheme, `//authority` when there
      is a host, the path, and `?query` when there is a query. */
  function Render(u: Uri): (r: string)
    ensures u.scheme.None? && u.host.None? && u.query.None? ==> r == u.path
    ensures u.scheme.Some? ==> StartsWith(r, u.scheme.value + ":")
  {
    (if u.scheme.Some? then u.scheme.value + ":" else "")
    + (if u.host.Some? then "//" + Authority(u).value else "")
    + u.path
    + (if u.query.Some? then "?" + u.query.value else "")
  }

  /** Addressable's table of the ports schemes default to. */
  const PortMapping: map<string, int> := map[
    "http" := 80, "https" := 443, "ftp" := 21, "tftp" := 69, "sftp" := 22,
    "ssh" := 22, "svn+ssh" := 22, "telnet" := 23, "nntp" := 119, "gopher" := 70,
    "wais" := 210, "ldap" := 389, "prospero" := 1525]

  /** `uri.scheme = uri.normalized_scheme; uri.authority = uri.normalized_authority`
      as far as case and ports go: scheme and host in lower case, and a port
      that is the scheme's default dropped. */
  function Normalized(u: Uri): (r: Uri)
    ensures r.path == u.path && r.query == u.query
    ensures r.host.Some? <==> u.host.Some?
    ensures r.scheme.Some? <==> u.scheme.Some?
    ensures r.port.Some? ==> r.port == u.port
  {
    var scheme := if u.scheme.Some? then Some(Downcase(u.scheme.value)) else None;
    u.(scheme := scheme,
       host := if u.host.Some? then Some(Downcase(u.host.value)) else None,
       port := if scheme.Some? && scheme.value in PortMapping && u.port == Some(PortMapping[scheme.value]) then None else u.port)
  }

  predicate IsHttpScheme(s: string) { Downcase(s) == "http" || Downcase(s) == "https" }

  /** URI#request_uri: nil for an absolute URI of a scheme other than http
      or https; otherwise the path ("/" when it is empty) and `?query`. */
  function RequestUri(u: Uri): (r: Option<string>)
    ensures r.None? <==> u.scheme.Some? && !IsHttpScheme(u.scheme.value)
    ensures r.Some? ==> StartsWith(r.value, if u.path == "" then "/" else u.path)
    ensures r.Some? && u.query.None? ==> r.value == (if u.path == "" then "/" else u.path)
    ensures r.Some? ==> r.value != ""
  {
    if u.scheme.Some? && !IsHttpScheme(u.scheme.value) then None
    else
      var p := if u.path == "" then "/" else u.path;
      Some(p + if u.query.Some? then "?" + u.query.value else "")
  }
}
