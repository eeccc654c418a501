/** HTTPAdapter::NetHTTPAdapter: converts between the tuples and
    Net::HTTPRequest / Net::HTTPResponse. A Net::HTTP object keeps its
    header fields the way Net::HTTPHeader does: a table keyed by the
    lower-cased name, each key holding its list of values, written out by
    #canonical_each as a capitalized name and the values joined by ", ". */
module NetHttp {
  import opened Values
  import opened Text
  import opened Numerals
  import opened Hashes
  import opened Uris
  import opened Bodies
  import opened HttpAdapter

  /** METHOD_MAPPING: the methods of section 9 of RFC 2616 and the WebDAV
      methods of RFC 4918, each with the Net::HTTP request class it builds. */
  const MethodMapping: map<string, string> := map[
    "OPTIONS" := "Net::HTTP::Options",
    "GET" := "Net::HTTP::Get",
    "HEAD" := "Net::HTTP::Head",
    "POST" := "Net::HTTP::Post",
    "PUT" := "Net::HTTP::Put",
    "DELETE" := "Net::HTTP::Delete",
    "TRACE" := "Net::HTTP::Trace",
    "COPY" := "Net::HTTP::Copy",
    "LOCK" := "Net::HTTP::Lock",
    "MKCOL" := "Net::HTTP::Mkcol",
    "MOVE" := "Net::HTTP::Move",
    "PROPFIND" := "Net::HTTP::Propfind",
    "PROPPATCH" := "Net::HTTP::Proppatch",
    "UNLOCK" := "Net::HTTP::Unlock"]

  /** STATUS_MESSAGES: the reason phrase of each status code the adapter
      can build a response for. */
  const StatusMessages: map<int, string> := map[
    100 := "Continue",
    101 := "Switching Protocols",
    102 := "Processing",
    200 := "OK",
    201 := "Created",
    202 := "Accepted",
    203 := "Non-Authoritative Information",
    204 := "No Content",
    205 := "Reset Content",
    206 := "Partial Content",
    207 := "Multi-Status",
    226 := "IM Used",
    300 := "Multiple Choices",
    301 := "Moved Permanently",
    302 := "Found",
    303 := "See Other",
    304 := "Not Modified",
    305 := "Use Proxy",
    307 := "Temporary Redirect",
    400 := "Bad Request",
    401 := "Unauthorized",
    402 := "Payment Required",
    403 := "Forbidden",
    404 := "Not Found",
    405 := "Method Not Allowed",
    406 := "Not Acceptable",
    407 := "Proxy Authentication Required",
    408 := "Request Timeout",
    409 := "Conflict",
    410 := "Gone",
    411 := "Length Required",
    412 := "Precondition Failed",
    413 := "Request Entity Too Large",
    414 := "Request-URI Too Long",
    415 := "Unsupported Media Type",
    416 := "Requested Range Not Satisfiable",
    417 := "Expectation Failed",
    422 := "Unprocessable Entity",
    423 := "Locked",
    424 := "Failed Dependency",
    426 := "Upgrade Required",
    500 := "Internal Server Error",
    501 := "Not Implemented",
    502 := "Bad Gateway",
    503 := "Service Unavailable",
    504 := "Gateway Timeout",
    505 := "HTTP Version Not Supported",
    507 := "Insufficient Storage",
    510 := "Not Extended"]

  /** Net::HTTPHeader's table. */
  type Fields = Hash<seq<string>>

  /** The Net::HTTP objects the adapter converts; anything else is Foreign. */
  datatype NetObject =
    | NetRequest(httpMethod: string, path: string, fields: Fields, body: Option<string>)
    | NetResponse(code: string, message: string, fields: Fields, body: Option<string>)
    | Foreign(v: Value)

  /** The fields every new Net::HTTP request starts with. */
  const DefaultFields: Fields := [("accept", ["*/*"]), ("user-agent", ["Ruby"])]

  /** `values.join(', ')` */
  function JoinComma(values: seq<string>): string
  {
    if values == [] then ""
    else if |values| == 1 then values[0]
    else JoinComma(values[..|values| - 1]) + ", " + values[|values| - 1]
  }

  /** #canonical_each: every key, in table order, as a capitalized name with
      its values joined. */
  function CanonicalEach(fields: Fields): (r: seq<Header>)
    ensures |r| == |fields|
    ensures forall i :: 0 <= i < |fields| ==> r[i] == (Recapitalized(fields[i].0, '-'), JoinComma(fields[i].1))
  {
    seq(|fields|, i requires 0 <= i < |fields| => (Recapitalized(fields[i].0, '-'), JoinComma(fields[i].1)))
  }

  /** `request[header] = value` for each header in turn, each key holding
      the one value last stored. */
  function FieldPairs(headers: seq<Header>): (r: seq<(string, seq<string>)>)
    ensures |r| == |headers|
    ensures forall i :: 0 <= i < |headers| ==> r[i] == (Downcase(headers[i].0), [headers[i].1])
  {
    seq(|headers|, i requires 0 <= i < |headers| => (Downcase(headers[i].0), [headers[i].1]))
  }

  /** `response.add_field(header, value)`: the value is appended to the
      key's list, which is created when the key is new. */
  function AddField(fields: Fields, name: string, value: string): Fields
  {
    var key := Downcase(name);
    Store(fields, key, LastValue(fields, key).GetOr([]) + [value])
  }

  function AddFields(fields: Fields, headers: seq<Header>): Fields
  {
    if headers == [] then fields
    else AddField(AddFields(fields, headers[..|headers| - 1]), headers[|headers| - 1].0, headers[|headers| - 1].1)
  }

  /** The URI convert_request_to_a rebuilds from the request path: the host
      taken from the Host header when the path has none, and, when there is
      a host, the scheme taken from the path, else X-Forwarded-Proto, else
      http, with scheme and authority normalised. */
  function ResolvedUri(u: Uri, hostHeader: Option<string>, schemeHeader: Option<string>): (r: Uri)
    ensures u.host.Some? ==> r.host == Some(Downcase(u.host.value))
    ensures u.host.None? && hostHeader.Some? ==> r.host == Some(Downcase(hostHeader.value))
    ensures u.host.None? && hostHeader.None? ==> r == u
    ensures r.host.Some? ==>
              r.scheme == Some(Downcase(if u.scheme.Some? then u.scheme.value else schemeHeader.GetOr("http")))
    ensures r.path == u.path && r.query == u.query
  {
    var withHost := if u.host.None? then u.(host := hostHeader) else u;
    if withHost.host.None? then withHost
    else
      var withScheme := if withHost.scheme.None? then withHost.(scheme := Some(schemeHeader.GetOr("http"))) else withHost;
      Normalized(withScheme)
  }

  // ---------------------------------------------------------------------
  // The converters

  /** #convert_request_to_a */
  function ConvertRequestToA(parse: string -> Uri, obj: NetObject): (r: Result<Value>)
    ensures !obj.NetRequest? ==> r == TypeErr(WrongNativeClass("Net::HTTPRequest"))
    ensures obj.NetRequest? ==> r.Ok?
    ensures r.Ok? ==>
      var headers := CanonicalEach(obj.fields);
      var uri := ResolvedUri(parse(obj.path), HeaderIgnoringCase(headers, "Host"), HeaderIgnoringCase(headers, "X-Forwarded-Proto"));
      r.value == Arr([Str(Upcase(obj.httpMethod)), Str(Render(uri)), PairsValue(headers), Arr([Str(obj.body.GetOr(""))])])
  {
    if !obj.NetRequest? then TypeErr(WrongNativeClass("Net::HTTPRequest"))
    else
      var headers := CanonicalEach(obj.fields);
      var uri := ResolvedUri(parse(obj.path), HeaderIgnoringCase(headers, "Host"), HeaderIgnoringCase(headers, "X-Forwarded-Proto"));
      Ok(Arr([Str(Upcase(obj.httpMethod)), Str(Render(uri)), PairsValue(headers), Arr([Str(obj.body.GetOr(""))])]))
  }

  /** The methods whose empty body is sent with `Content-Length: 0`. */
  predicate SendsEmptyBody(m: string) { m == "POST" || m == "PUT" }

  /** The fields of the request built from a tuple: the defaults, then each
      tuple header stored in turn, then Host from the URI when no header
      named Host (in any case) was given and the URI has a host. */
  function RequestFields(uri: Uri, headers: seq<Header>): Fields
  {
    var fields := StoreAll(DefaultFields, FieldPairs(headers));
    if HeaderIgnoringCase(headers, "Host").None? && uri.host.Some? then Store(fields, "host", [uri.host.value])
    else fields
  }

  /** #convert_request_from_a */
  function ConvertRequestFromA(parse: string -> Uri, request: Request): (r: Result<NetObject>)
    ensures Upcase(request.httpMethod) !in MethodMapping ==>
              r == Err(Error(ArgumentError, UnknownMethod(Upcase(request.httpMethod))))
    ensures r.Ok? ==> r.value.NetRequest? && r.value.httpMethod == Upcase(request.httpMethod)
                      && r.value.httpMethod in MethodMapping
    ensures r.Ok? ==> RequestUri(parse(request.uri)) == Some(r.value.path)
    ensures r.Ok? ==> MergedBody(request.body).Ok?
    ensures r.Ok? && MergedBody(request.body).value != "" ==> r.value.body == Some(MergedBody(request.body).value)
    ensures r.Ok? && MergedBody(request.body).value == "" ==> r.value.body.None?
    ensures Upcase(request.httpMethod) in MethodMapping && RequestUri(parse(request.uri)).Some? ==>
              r.Ok? == MergedBody(request.body).Ok?
  {
    var m := Upcase(request.httpMethod);
    var uri := parse(request.uri);
    if m !in MethodMapping then Err(Error(ArgumentError, UnknownMethod(m)))
    else if RequestUri(uri).None? then Err(Error(ArgumentError, Message("no HTTP request path given")))
    else
      var fields := RequestFields(uri, request.headers);
      var merged :- MergedBody(request.body);
      if |merged| > 0 then Ok(NetRequest(m, RequestUri(uri).value, fields, Some(merged)))
      else if SendsEmptyBody(m) then Ok(NetRequest(m, RequestUri(uri).value, Store(fields, "content-length", ["0"]), None))
      else Ok(NetRequest(m, RequestUri(uri).value, fields, None))
  }

  /** #convert_response_to_a */
  function ConvertResponseToA(obj: NetObject): (r: Result<Value>)
    ensures !obj.NetResponse? ==> r == TypeErr(WrongNativeClass("Net::HTTPResponse"))
    ensures obj.NetResponse? ==>
              r == Ok(Arr([Int(StringToI(obj.code)), PairsValue(CanonicalEach(obj.fields)), Arr([Str(obj.body.GetOr(""))])]))
  {
    if !obj.NetResponse? then TypeErr(WrongNativeClass("Net::HTTPResponse"))
    else Ok(Arr([Int(StringToI(obj.code)), PairsValue(CanonicalEach(obj.fields)), Arr([Str(obj.body.GetOr(""))])]))
  }

  /** #convert_response_from_a. `codeToObj` is the set of status codes, as
      strings, that Net::HTTPResponse::CODE_TO_OBJ has a class for. */
  function ConvertResponseFromA(codeToObj: set<string>, response: Response): (r: Result<NetObject>)
    ensures response.status !in StatusMessages || IntToString(response.status) !in codeToObj ==>
              r == Err(Error(ArgumentError, UnknownStatus(response.status)))
    ensures r.Ok? ==> r.value.NetResponse? && r.value.message == StatusMessages[response.status]
                      && StringToI(r.value.code) == response.status
    ensures r.Ok? ==> MergedBody(response.body).Ok? && r.value.body == Some(MergedBody(response.body).value)
    ensures response.status in StatusMessages && IntToString(response.status) in codeToObj ==>
              r.Ok? == MergedBody(response.body).Ok?
    ensures r.Ok? ==> r.value.fields == AddFields([], response.headers)
  {
    if response.status !in StatusMessages || IntToString(response.status) !in codeToObj then
      Err(Error(ArgumentError, UnknownStatus(response.status)))
    else
      var fields := AddFields([], response.headers);
      var merged :- MergedBody(response.body);
      StringToIOfIntToString(response.status);
      Ok(NetResponse(IntToString(response.status), StatusMessages[response.status], fields, Some(merged)))
  }

  /** NetHTTPAdapter as the mixin sees it; `fetch` stands for its
      #fetch_resource, which performs the network exchange. */
  function NetHttpAdapter(parse: string -> Uri, codeToObj: set<string>,
                          fetch: (Request, ConnectionArg) -> Result<Value>): Adapter<NetObject, NetObject>
  {
    Adapter(Some(obj => ConvertRequestToA(parse, obj)),
            Some(req => ConvertRequestFromA(parse, req)),
            Some(ConvertResponseToA),
            Some(resp => ConvertResponseFromA(codeToObj, resp)),
            Some(fetch))
  }

  /** Adapting a Net::HTTP response gives its code read with to_i, the
      pairs of #canonical_each and its body as the only chunk. */
  lemma AdaptNetHttpResponse(parse: string -> Uri, codeToObj: set<string>,
                             fetch: (Request, ConnectionArg) -> Result<Value>, obj: NetObject)
    requires obj.NetResponse?
    ensures AdaptResponse(NetHttpAdapter(parse, codeToObj, fetch), obj)
            == Ok(Response(StringToI(obj.code), CanonicalEach(obj.fields), Arr([Str(obj.body.GetOr(""))])))
  {
    ResponseToAVerifies(obj);
  }

  /** The tuple of a Net::HTTP response verifies to its code, its canonical
      pairs and its one-chunk body. */
  lemma ResponseToAVerifies(obj: NetObject)
    requires obj.NetResponse?
    ensures VerifiedResponse(ConvertResponseToA(obj).value)
            == Ok(Response(StringToI(obj.code), CanonicalEach(obj.fields), Arr([Str(obj.body.GetOr(""))])))
  {
    PairsVerify(CanonicalEach(obj.fields));
  }

  // ---------------------------------------------------------------------
  // Properties

  lemma MethodMappingIsUpcased(m: string)
    requires m in MethodMapping
    ensures IsUpcased(m) && Upcase(m) == m
  {
  }

  /** A method of any case is accepted exactly when its upper-case form is
      one of the fourteen; BOGUS is refused with ArgumentError. */
  lemma BogusMethodRefused(parse: string -> Uri, request: Request)
    requires Upcase(request.httpMethod) == "BOGUS"
    ensures ConvertRequestFromA(parse, request) == Err(Error(ArgumentError, UnknownMethod("BOGUS")))
  {
    assert "BOGUS" !in MethodMapping;
  }

  /** Lower-cased names looked up in a table of wrapped values find the
      wrapped value of the last matching header. */
  lemma {:induction false} FieldPairsLookup(headers: seq<Header>, k: string)
    ensures LastValue(FieldPairs(headers), k) ==
              if LastValue(LowerNames(headers), k).Some? then Some([LastValue(LowerNames(headers), k).value]) else None
  {
    if headers != [] {
      var init := headers[..|headers| - 1];
      FieldPairsLookup(init, k);
      assert FieldPairs(headers)[..|headers| - 1] == FieldPairs(init);
      assert LowerNames(headers)[..|headers| - 1] == LowerNames(init);
    }
  }

  /** Which value each field of a request built from a tuple holds: the
      last tuple header of that name (in any case); else, for Host, the
      URI's host; else the default. */
  lemma RequestFieldsLookup(uri: Uri, headers: seq<Header>, k: string)
    requires IsLowerName(k)
    ensures UniqueKeys(RequestFields(uri, headers))
    ensures LastValue(RequestFields(uri, headers), k) ==
              if HeaderIgnoringCase(headers, k).Some? then Some([HeaderIgnoringCase(headers, k).value])
              else if k == "host" && uri.host.Some? then Some([uri.host.value])
              else LastValue(DefaultFields, k)
  {
    DowncaseLower(k);
    assert Downcase("Host") == "host";
    FieldPairsLookup(headers, k);
    StoreAllLookup(DefaultFields, FieldPairs(headers), k);
    var fields := StoreAll(DefaultFields, FieldPairs(headers));
    if HeaderIgnoringCase(headers, "Host").None? && uri.host.Some? {
      StoreLookup(fields, "host", [uri.host.value], k);
    }
  }

  predicate IsLowerName(k: string) { forall i :: 0 <= i < |k| ==> !IsUpper(k[i]) }

  lemma DowncaseLower(k: string)
    requires IsLowerName(k)
    ensures Downcase(k) == k
  {
  }

  /** The fields of a request built from a tuple: the stored headers, with
      Content-Length 0 added for an empty POST or PUT. */
  lemma ResultFields(parse: string -> Uri, request: Request)
    requires ConvertRequestFromA(parse, request).Ok?
    ensures var fields := RequestFields(parse(request.uri), request.headers);
            ConvertRequestFromA(parse, request).value.fields ==
              if MergedBody(request.body).value == "" && SendsEmptyBody(Upcase(request.httpMethod))
              then Store(fields, "content-length", ["0"]) else fields
  {
  }

  /** The Host rule: a Host header given in the tuple (in any case) wins;
      otherwise the URI's host is used when there is one. */
  lemma HostField(parse: string -> Uri, request: Request)
    requires ConvertRequestFromA(parse, request).Ok?
    ensures var uri := parse(request.uri);
            LastValue(ConvertRequestFromA(parse, request).value.fields, "host") ==
              if HeaderIgnoringCase(request.headers, "Host").Some? then Some([HeaderIgnoringCase(request.headers, "Host").value])
              else if uri.host.Some? then Some([uri.host.value])
              else None
  {
    ResultFields(parse, request);
    FieldsHost(parse(request.uri), request.headers,
               MergedBody(request.body).value == "" && SendsEmptyBody(Upcase(request.httpMethod)));
  }

  /** Host among the fields built from the headers, with or without the
      forced Content-Length. */
  lemma FieldsHost(uri: Uri, headers: seq<Header>, forced: bool)
    ensures var fields := RequestFields(uri, headers);
            LastValue(if forced then Store(fields, "content-length", ["0"]) else fields, "host") ==
              if HeaderIgnoringCase(headers, "Host").Some? then Some([HeaderIgnoringCase(headers, "Host").value])
              else if uri.host.Some? then Some([uri.host.value])
              else None
  {
    var fields := RequestFields(uri, headers);
    assert Downcase("Host") == "host";
    RequestFieldsLookup(uri, headers, "host");
    if forced {
      StoreLookup(fields, "content-length", ["0"], "host");
    }
  }

  /** Content-Length among the fields built from the headers, with or
      without the forced 0. */
  lemma FieldsContentLength(uri: Uri, headers: seq<Header>, forced: bool)
    ensures var fields := RequestFields(uri, headers);
            LastValue(if forced then Store(fields, "content-length", ["0"]) else fields, "content-length") ==
              if forced then Some(["0"])
              else if HeaderIgnoringCase(headers, "Content-Length").Some? then
                Some([HeaderIgnoringCase(headers, "Content-Length").value])
              else None
  {
    var fields := RequestFields(uri, headers);
    assert Downcase("Content-Length") == "content-length";
    RequestFieldsLookup(uri, headers, "content-length");
    if forced {
      StoreLookup(fields, "content-length", ["0"], "content-length");
    }
  }

  /** The Content-Length rule: an empty POST or PUT body sets the length to
      0; a non-empty body is sent as it is; any other empty request keeps
      whatever Content-Length the tuple gave. */
  lemma ContentLengthField(parse: string -> Uri, request: Request)
    requires ConvertRequestFromA(parse, request).Ok?
    ensures var r := ConvertRequestFromA(parse, request).value;
            LastValue(r.fields, "content-length") ==
              if MergedBody(request.body).value == "" && SendsEmptyBody(r.httpMethod) then Some(["0"])
              else if HeaderIgnoringCase(request.headers, "Content-Length").Some? then
                Some([HeaderIgnoringCase(request.headers, "Content-Length").value])
              else None
  {
    ResultFields(parse, request);
    FieldsContentLength(parse(request.uri), request.headers,
                        MergedBody(request.body).value == "" && SendsEmptyBody(Upcase(request.httpMethod)));
  }

  /** A request read from Net::HTTP always passes verification: a String
      method and URI, String header pairs and a one-chunk body. */
  lemma AdaptedRequestVerifies(parse: string -> Uri, obj: NetObject)
    requires obj.NetRequest?
    ensures VerifiedRequest(ConvertRequestToA(parse, obj).value).Ok?
    ensures VerifiedRequest(ConvertRequestToA(parse, obj).value).value.body == Arr([Str(obj.body.GetOr(""))])
    ensures VerifiedRequest(ConvertRequestToA(parse, obj).value).value.headers == CanonicalEach(obj.fields)
  {
    var headers := CanonicalEach(obj.fields);
    var uri := ResolvedUri(parse(obj.path), HeaderIgnoringCase(headers, "Host"), HeaderIgnoringCase(headers, "X-Forwarded-Proto"));
    StringRequestVerifies(Upcase(obj.httpMethod), Render(uri), headers, obj.body.GetOr(""));
  }

  /** A header name that differs from every other in lower case. */
  predicate DistinctIgnoringCase(headers: seq<Header>)
  {
    forall i, j :: 0 <= i < j < |headers| ==> Downcase(headers[i].0) != Downcase(headers[j].0)
  }

  /** Adding fields of distinct names creates one single-valued field each, in order. */
  lemma {:induction false} AddDistinctFields(headers: seq<Header>)
    requires DistinctIgnoringCase(headers)
    ensures AddFields([], headers) == FieldPairs(headers)
  {
    if headers != [] {
      var init := headers[..|headers| - 1];
      var last := headers[|headers| - 1];
      AddDistinctFields(init);
      var key := Downcase(last.0);
      assert !HasKey(FieldPairs(init), key) by {
        forall i | 0 <= i < |init| ensures FieldPairs(init)[i].0 != key {
          assert init[i] == headers[i];
        }
      }
      assert LastValue(FieldPairs(init), key) == None;
      assert AddFields([], headers) == Store(FieldPairs(init), key, [] + [last.1]);
      assert [] + [last.1] == [last.1];
      assert FieldPairs(headers) == FieldPairs(init) + [(key, [last.1])];
    }
  }

  /** A capitalized-dashed name comes back unchanged from Net::HTTPHeader's
      lower-case key. */
  lemma CanonicalNameRoundTrip(name: string)
    requires IsCapitalizedDashed(name)
    ensures Recapitalized(Downcase(name), '-') == name
  {
    assert Downcase(name) == MapChars(DownChar, name);
    var parts := Split(name, '-');
    forall k | 0 <= k < |parts|
      ensures Capitalize(MapChars(DownChar, parts[k])) == Capitalize(parts[k])
    {
      assert MapChars(DownChar, parts[k]) == Downcase(parts[k]);
      CapitalizeDowncase(parts[k]);
    }
    RecapitalizeRoundTrip(DownChar, name, '-');
  }

  /** Specializing a response and adapting it back gives the same status,
      the body merged into one chunk, and the same headers when their names
      are capitalized-dashed and distinct ignoring case. */
  lemma ResponseRoundTrip(codeToObj: set<string>, response: Response)
    requires response.status in StatusMessages && IntToString(response.status) in codeToObj
    requires MergedBody(response.body).Ok?
    requires DistinctIgnoringCase(response.headers)
    requires forall i :: 0 <= i < |response.headers| ==> IsCapitalizedDashed(response.headers[i].0)
    ensures ConvertResponseFromA(codeToObj, response).Ok?
    ensures ConvertResponseToA(ConvertResponseFromA(codeToObj, response).value)
            == Ok(ResponseValue(Response(response.status, response.headers, Arr([Str(MergedBody(response.body).value)]))))
  {
    var obj := ConvertResponseFromA(codeToObj, response).value;
    assert obj.fields == AddFields([], response.headers);
    FieldsReadBack(response.headers);
  }

  /** Headers with distinct capitalized-dashed names, stored and read back
      by #canonical_each, are the same headers. */
  lemma FieldsReadBack(hs: seq<Header>)
    requires DistinctIgnoringCase(hs)
    requires forall i :: 0 <= i < |hs| ==> IsCapitalizedDashed(hs[i].0)
    ensures CanonicalEach(AddFields([], hs)) == hs
  {
    var fields := FieldPairs(hs);
    AddDistinctFields(hs);
    var back := CanonicalEach(fields);
    forall i | 0 <= i < |hs| ensures back[i] == hs[i] {
      FieldReadBack(hs[i], fields[i]);
    }
  }

  /** The values of the headers whose name, downcased, is `key`, in order. */
  function ValuesNamed(headers: seq<Header>, key: string): seq<string>
  {
    if headers == [] then []
    else ValuesNamed(headers[..|headers| - 1], key)
         + (if Downcase(headers[|headers| - 1].0) == key then [headers[|headers| - 1].1] else [])
  }

  /** One #add_field appends the value to its name's entry and leaves the
      other entries alone. */
  lemma AddFieldLookup(fields: Fields, name: string, value: string, key: string)
    requires UniqueKeys(fields)
    ensures UniqueKeys(AddField(fields, name, value))
    ensures LastValue(AddField(fields, name, value), key)
            == if Downcase(name) == key then Some(LastValue(fields, key).GetOr([]) + [value]) else LastValue(fields, key)
  {
    StoreLookup(fields, Downcase(name), LastValue(fields, Downcase(name)).GetOr([]) + [value], key);
  }

  /** #add_field over all headers keeps one entry per downcased name, and
      that entry holds every value given under the name, in order. */
  lemma {:induction false} AddFieldsLookup(headers: seq<Header>, key: string)
    ensures UniqueKeys(AddFields([], headers))
    ensures LastValue(AddFields([], headers), key)
            == if ValuesNamed(headers, key) == [] then None else Some(ValuesNamed(headers, key))
  {
    if headers != [] {
      var init := headers[..|headers| - 1];
      var (name, value) := headers[|headers| - 1];
      AddFieldsLookup(init, key);
      AddFieldLookup(AddFields([], init), name, value, key);
      assert AddFields([], headers) == AddField(AddFields([], init), name, value);
      if Downcase(name) == key {
        assert LastValue(AddFields([], init), key).GetOr([]) == ValuesNamed(init, key);
        assert ValuesNamed(headers, key) == ValuesNamed(init, key) + [value];
      } else {
        assert ValuesNamed(headers, key) == ValuesNamed(init, key) + [];
        assert ValuesNamed(init, key) + [] == ValuesNamed(init, key);
      }
    }
  }

  /** Adding a field under a name the table does not hold yet appends it. */
  lemma AddFreshField(fields: Fields, name: string, value: string)
    requires LastValue(fields, Downcase(name)).None?
    ensures AddField(fields, name, value) == fields + [(Downcase(name), [value])]
  {
    assert !HasKey(fields, Downcase(name));
    assert LastValue(fields, Downcase(name)).GetOr([]) + [value] == [value];
  }

  /** Adding a field to the table of that one name appends the value. */
  lemma AddRepeatedField(key: string, values: seq<string>, name: string, value: string)
    requires Downcase(name) == key
    ensures AddField([(key, values)], name, value) == [(key, values + [value])]
  {
    var one: Fields := [(key, values)];
    assert one[0].0 == key;
  }

  /** Two headers of the same name, ignoring case, read back from
      #canonical_each as one header whose values are joined by ", ". */
  lemma RepeatedNameJoined(name: string, first: string, other: string, second: string)
    requires IsCapitalizedDashed(name) && Downcase(other) == Downcase(name)
    ensures CanonicalEach(AddFields([], [(name, first), (other, second)])) == [(name, first + ", " + second)]
  {
    var headers := [(name, first), (other, second)];
    var k := Downcase(name);
    assert headers[..1] == [(name, first)];
    assert [(name, first)][..0] == [];
    AddFreshField([], name, first);
    assert AddFields([], [(name, first)]) == AddField([], name, first);
    assert AddFields([], [(name, first)]) == [(k, [first])];
    AddRepeatedField(k, [first], other, second);
    assert [first] + [second] == [first, second];
    assert AddFields([], headers) == AddField(AddFields([], [(name, first)]), other, second);
    assert AddFields([], headers) == [(k, [first, second])];
    assert JoinComma([first, second]) == first + ", " + second by {
      assert [first, second][..1] == [first];
    }
    CanonicalNameRoundTrip(name);
  }

  /** One single-valued field of a capitalized-dashed name reads back as
      its header. */
  lemma FieldReadBack(h: Header, field: (string, seq<string>))
    requires IsCapitalizedDashed(h.0) && field == (Downcase(h.0), [h.1])
    ensures (Recapitalized(field.0, '-'), JoinComma(field.1)) == h
  {
    CanonicalNameRoundTrip(h.0);
  }

  // ---------------------------------------------------------------------
  // The converters' loops, as the source runs them

  /** The loop of #convert_request_to_a over #canonical_each: copies every
      pair and remembers the last Host and X-Forwarded-Proto values. */
  method ScanHeaders(headers: seq<Header>) returns (copied: seq<Header>, host: Option<string>, scheme: Option<string>)
    ensures copied == headers
    ensures host == HeaderIgnoringCase(headers, "Host")
    ensures scheme == HeaderIgnoringCase(headers, "X-Forwarded-Proto")
  {
    assert Downcase("Host") == "host";
    assert Downcase("X-Forwarded-Proto") == "x-forwarded-proto";
    copied, host, scheme := [], None, None;
    var i := 0;
    while i < |headers|
      invariant 0 <= i <= |headers|
      invariant copied == headers[..i]
      invariant host == LastValue(LowerNames(headers[..i]), "host")
      invariant scheme == LastValue(LowerNames(headers[..i]), "x-forwarded-proto")
    {
      var (name, value) := headers[i];
      LowerNamesPrefix(headers, i);
      if Downcase(name) == "x-forwarded-proto" {
        scheme := Some(value);
      } else if Downcase(name) == "host" {
        host := Some(value);
      }
      copied := copied + [(name, value)];
      i := i + 1;
    }
    assert headers[..i] == headers;
  }

  /** One more header stores one more field. */
  lemma FieldPairsPrefix(headers: seq<Header>, i: nat)
    requires i < |headers|
    ensures StoreAll(DefaultFields, FieldPairs(headers[..i + 1]))
            == Store(StoreAll(DefaultFields, FieldPairs(headers[..i])), Downcase(headers[i].0), [headers[i].1])
  {
    assert FieldPairs(headers[..i + 1])[..i] == FieldPairs(headers[..i]);
  }

  /** One more header adds its lower-cased pair to the lookup table. */
  lemma LowerNamesPrefix(headers: seq<Header>, i: nat)
    requires i < |headers|
    ensures LowerNames(headers[..i + 1]) == LowerNames(headers[..i]) + [(Downcase(headers[i].0), headers[i].1)]
  {
  }

  /** The loop of #convert_request_from_a over the tuple's headers, with
      the Host default after it. */
  method ApplyHeaders(uri: Uri, headers: seq<Header>) returns (fields: Fields)
    ensures fields == RequestFields(uri, headers)
  {
    assert Downcase("Host") == "host";
    fields := DefaultFields;
    var hostFromHeader: Option<string> := None;
    var i := 0;
    while i < |headers|
      invariant 0 <= i <= |headers|
      invariant fields == StoreAll(DefaultFields, FieldPairs(headers[..i]))
      invariant hostFromHeader == LastValue(LowerNames(headers[..i]), "host")
    {
      var (name, value) := headers[i];
      FieldPairsPrefix(headers, i);
      LowerNamesPrefix(headers, i);
      fields := Store(fields, Downcase(name), [value]);
      if Downcase(name) == "host" {
        hostFromHeader := Some(value);
      }
      i := i + 1;
    }
    assert headers[..i] == headers;
    if hostFromHeader.None? && uri.host.Some? {
      fields := Store(fields, "host", [uri.host.value]);
    }
  }

  /** The loop of #convert_response_from_a adding every header as a field. */
  method AddResponseFields(headers: seq<Header>) returns (fields: Fields)
    ensures fields == AddFields([], headers)
  {
    fields := [];
    var i := 0;
    while i < |headers|
      invariant 0 <= i <= |headers|
      invariant fields == AddFields([], headers[..i])
    {
      assert headers[..i + 1][..i] == headers[..i];
      assert AddFields([], headers[..i + 1]) == AddField(AddFields([], headers[..i]), headers[i].0, headers[i].1);
      var key := Downcase(headers[i].0);
      var existing := LastValue(fields, key);
      if existing.Some? {
        fields := Store(fields, key, existing.value + [headers[i].1]);
      } else {
        assert existing.GetOr([]) + [headers[i].1] == [headers[i].1];
        fields := Store(fields, key, [headers[i].1]);
      }
      i := i + 1;
    }
    assert headers[..i] == headers;
  }

  /** The loop of #convert_response_to_a copying every pair that
      #canonical_each yields. */
  method CopyCanonical(fields: Fields) returns (headers: seq<Header>)
    ensures headers == CanonicalEach(fields)
  {
    headers := [];
    var i := 0;
    while i < |fields|
      invariant 0 <= i <= |fields|
      invariant |headers| == i
      invariant forall k :: 0 <= k < i ==> headers[k] == (Recapitalized(fields[k].0, '-'), JoinComma(fields[k].1))
    {
      headers := headers + [(Recapitalized(fields[i].0, '-'), JoinComma(fields[i].1))];
      i := i + 1;
    }
  }
}
