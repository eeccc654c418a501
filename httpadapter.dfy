/** The HTTPAdapter mixin: the request tuple `[method, uri, headers, body]`
    and the response tuple `[status, headers, body]` that every adapter
    converts to and from, the verification that coerces a candidate tuple to
    canonical form or raises TypeError, and the five mixin operations that
    verify tuples at every boundary. */
module HttpAdapter {
  import opened Values
  import opened Text
  import opened Numerals
  import opened Hashes
  import ConnectionWrapper

  /** A header as a verified tuple carries it: name and value, both Strings. */
  type Header = (string, string)

  /** A verified request tuple. The body is whatever object the candidate
      carried; verification never iterates it. */
  datatype Request = Request(httpMethod: string, uri: string, headers: seq<Header>, body: Value)

  /** A verified response tuple. */
  datatype Response = Response(status: int, headers: seq<Header>, body: Value)

  /** A body the tuple format admits: it answers #each and is not a String. */
  predicate IsStreamableBody(body: Value) { !body.Str? && RespondsToEach(body) }

  predicate IsCanonicalRequest(r: Request) { IsUpcased(r.httpMethod) && IsStreamableBody(r.body) }

  predicate IsCanonicalResponse(r: Response) { IsStreamableBody(r.body) }

  /** The Ruby array a verified request is returned as. */
  function RequestValue(r: Request): Value
  {
    Arr([Str(r.httpMethod), Str(r.uri), PairsValue(r.headers), r.body])
  }

  /** The Ruby array a verified response is returned as. */
  function ResponseValue(r: Response): Value
  {
    Arr([Int(r.status), PairsValue(r.headers), r.body])
  }

  /** The headers with their names lower-cased. */
  function LowerNames(headers: seq<Header>): (r: seq<Header>)
    ensures |r| == |headers|
    ensures forall i :: 0 <= i < |headers| ==> r[i] == (Downcase(headers[i].0), headers[i].1)
  {
    seq(|headers|, i requires 0 <= i < |headers| => (Downcase(headers[i].0), headers[i].1))
  }

  /** The value of the last header whose name equals `name` ignoring case:
      what a loop assigning `x = value if header.downcase == name` leaves. */
  function HeaderIgnoringCase(headers: seq<Header>, name: string): Option<string>
  {
    LastValue(LowerNames(headers), Downcase(name))
  }

  // ---------------------------------------------------------------------
  // Verification

  /** One item yielded by the headers' #each, bound to `|header, value|`:
      both must convert with #to_str, the name first. */
  function VerifiedHeader(item: Value): (r: Result<Header>)
    ensures r.Ok? <==> RespondsToStr(BlockPair(item).0) && RespondsToStr(BlockPair(item).1)
    ensures r.Ok? ==> r.value == (ToStr(BlockPair(item).0), ToStr(BlockPair(item).1))
    ensures !RespondsToStr(BlockPair(item).0) ==> r == TypeErr(HeaderNameNotString)
    ensures RespondsToStr(BlockPair(item).0) && !RespondsToStr(BlockPair(item).1) ==> r == TypeErr(HeaderValueNotString)
  {
    var (name, value) := BlockPair(item);
    if !RespondsToStr(name) then TypeErr(HeaderNameNotString)
    else if !RespondsToStr(value) then TypeErr(HeaderValueNotString)
    else Ok((ToStr(name), ToStr(value)))
  }

  /** The fresh header list built from the yielded items: one pair per item,
      in order, duplicates kept; or the error of the first bad item. */
  function VerifiedItems(items: seq<Value>): (r: Result<seq<Header>>)
    ensures r.Ok? <==> forall i :: 0 <= i < |items| ==> VerifiedHeader(items[i]).Ok?
    ensures r.Ok? ==> |r.value| == |items|
    ensures r.Ok? ==> forall i :: 0 <= i < |items| ==> VerifiedHeader(items[i]) == Ok(r.value[i])
    ensures r.Err? ==> exists k :: 0 <= k < |items| && VerifiedHeader(items[k]) == Err(r.error)
                                   && forall j :: 0 <= j < k ==> VerifiedHeader(items[j]).Ok?
  {
    if items == [] then Ok([])
    else
      var init := items[..|items| - 1];
      var verified :- VerifiedItems(init);
      var header :- VerifiedHeader(items[|items| - 1]);
      assert forall i :: 0 <= i < |init| ==> items[i] == init[i];
      Ok(verified + [header])
  }

  /** The headers element: it must answer #each. */
  function VerifiedHeaders(headers: Value): (r: Result<seq<Header>>)
    ensures !RespondsToEach(headers) ==> r == TypeErr(HeadersNotEnumerable)
    ensures RespondsToEach(headers) ==> r == VerifiedItems(Each(headers))
  {
    if !RespondsToEach(headers) then TypeErr(HeadersNotEnumerable)
    else VerifiedItems(Each(headers))
  }

  /** The method element as a String: #to_str when it answers it, a
      Symbol's name, nothing otherwise. */
  function MethodName(m: Value): (r: Option<string>)
    ensures r.Some? <==> RespondsToStr(m) || m.Sym?
    ensures m.Str? ==> r == Some(m.s)
    ensures RespondsToStr(m) ==> r == Some(ToStr(m))
    ensures m.Sym? ==> r == Some(m.name)
  {
    if RespondsToStr(m) then Some(ToStr(m))
    else if m.Sym? then Some(m.name)
    else None
  }

  /** The status element as an Integer: after #to_i when it answers it. */
  function StatusCode(status: Value): (r: Option<int>)
    ensures status.Int? ==> r == Some(status.i)
    ensures status.Str? ==> r == Some(StringToI(status.s))
    ensures status.Nil? ==> r == Some(0)
    ensures status.Sym? || status.Bool? || status.Arr? ==> r.None?
    ensures status.Obj? ==> r == (if status.toI.Some? && status.toI.value.Int? then Some(status.toI.value.i) else None)
  {
    var coerced := if RespondsToI(status) then ToI(status) else status;
    if coerced.Int? then Some(coerced.i) else None
  }

  /** The body element: not a String, and answering #each. */
  function VerifiedBody(body: Value): (r: Result<Value>)
    ensures r.Ok? <==> IsStreamableBody(body)
    ensures r.Ok? ==> r.value == body
    ensures body.Str? ==> r == TypeErr(BodyIsString)
    ensures !body.Str? && !RespondsToEach(body) ==> r == TypeErr(BodyNotEnumerable)
  {
    if body.Str? then TypeErr(BodyIsString)
    else if !RespondsToEach(body) then TypeErr(BodyNotEnumerable)
    else Ok(body)
  }

  /** HTTPAdapter.verified_request: checks an Array of exactly four
      elements, then the method, the URI, the headers and the body in that
      order, and returns the canonical tuple. */
  function VerifiedRequest(request: Value): (r: Result<Request>)
    ensures !request.Arr? ==> r == TypeErr(NotAnArray)
    ensures request.Arr? && |request.elems| != 4 ==> r == TypeErr(WrongArity)
    ensures request.Arr? && |request.elems| == 4 ==>
      var e := request.elems;
      && (MethodName(e[0]).None? ==> r == TypeErr(MethodNotString))
      && (MethodName(e[0]).Some? && !RespondsToStr(e[1]) ==> r == TypeErr(UriNotString))
      && (MethodName(e[0]).Some? && RespondsToStr(e[1]) && VerifiedHeaders(e[2]).Err? ==>
            r == Err(VerifiedHeaders(e[2]).error))
      && (MethodName(e[0]).Some? && RespondsToStr(e[1]) && VerifiedHeaders(e[2]).Ok? ==>
            r == match VerifiedBody(e[3])
                 case Err(error) => Err(error)
                 case Ok(body) => Ok(Request(Upcase(MethodName(e[0]).value), ToStr(e[1]), VerifiedHeaders(e[2]).value, body)))
    ensures r.Ok? ==> IsCanonicalRequest(r.value)
  {
    if !request.Arr? then TypeErr(NotAnArray)
    else if |request.elems| != 4 then TypeErr(WrongArity)
    else
      var name := MethodName(request.elems[0]);
      if name.None? then TypeErr(MethodNotString)
      else if !RespondsToStr(request.elems[1]) then TypeErr(UriNotString)
      else
        var headers :- VerifiedHeaders(request.elems[2]);
        var body :- VerifiedBody(request.elems[3]);
        UpcaseIdempotent(name.value);
        Ok(Request(Upcase(name.value), ToStr(request.elems[1]), headers, body))
  }

  /** HTTPAdapter.verified_response: checks an Array of exactly three
      elements, then the status, the headers and the body in that order. */
  function VerifiedResponse(response: Value): (r: Result<Response>)
    ensures !response.Arr? ==> r == TypeErr(NotAnArray)
    ensures response.Arr? && |response.elems| != 3 ==> r == TypeErr(WrongArity)
    ensures response.Arr? && |response.elems| == 3 ==>
      var e := response.elems;
      && (StatusCode(e[0]).None? ==> r == TypeErr(StatusNotInteger))
      && (StatusCode(e[0]).Some? && VerifiedHeaders(e[1]).Err? ==> r == Err(VerifiedHeaders(e[1]).error))
      && (StatusCode(e[0]).Some? && VerifiedHeaders(e[1]).Ok? ==>
            r == match VerifiedBody(e[2])
                 case Err(error) => Err(error)
                 case Ok(body) => Ok(Response(StatusCode(e[0]).value, VerifiedHeaders(e[1]).value, body)))
    ensures r.Ok? ==> IsCanonicalResponse(r.value)
  {
    if !response.Arr? then TypeErr(NotAnArray)
    else if |response.elems| != 3 then TypeErr(WrongArity)
    else
      var status := StatusCode(response.elems[0]);
      if status.None? then TypeErr(StatusNotInteger)
      else
        var headers :- VerifiedHeaders(response.elems[1]);
        var body :- VerifiedBody(response.elems[2]);
        Ok(Response(status.value, headers, body))
  }

  // ---------------------------------------------------------------------
  // Properties of verification

  /** The first item that fails decides the error of the whole list. */
  lemma FirstBadHeader(items: seq<Value>, k: int)
    requires 0 <= k < |items| && VerifiedHeader(items[k]).Err?
    requires forall j :: 0 <= j < k ==> VerifiedHeader(items[j]).Ok?
    ensures VerifiedItems(items) == Err(VerifiedHeader(items[k]).error)
  {
    var r := VerifiedItems(items);
    assert r.Err?;
    var k' :| 0 <= k' < |items| && VerifiedHeader(items[k']) == Err(r.error)
              && forall j :: 0 <= j < k' ==> VerifiedHeader(items[j]).Ok?;
    assert !(k' < k);
    assert !(k < k');
  }

  /** A list of String pairs verifies to itself. */
  lemma PairsVerify(headers: seq<Header>)
    ensures VerifiedHeaders(PairsValue(headers)) == Ok(headers)
  {
    var items := PairsValue(headers).elems;
    forall i | 0 <= i < |items| ensures VerifiedHeader(items[i]) == Ok(headers[i]) {
      assert BlockPair(items[i]) == (Str(headers[i].0), Str(headers[i].1));
    }
    var r := VerifiedItems(items);
    assert forall i :: 0 <= i < |headers| ==> r.value[i] == headers[i];
    assert r.value == headers;
  }

  /** A tuple of a String method and URI, String header pairs and a
      one-chunk body verifies, with the method upcased. */
  lemma StringRequestVerifies(m: string, uri: string, headers: seq<Header>, body: string)
    ensures VerifiedRequest(Arr([Str(m), Str(uri), PairsValue(headers), Arr([Str(body)])]))
            == Ok(Request(Upcase(m), uri, headers, Arr([Str(body)])))
  {
    PairsVerify(headers);
  }

  /** Verification accepts exactly the well-formed request tuples. */
  predicate WellFormedRequest(v: Value)
  {
    && v.Arr? && |v.elems| == 4
    && (RespondsToStr(v.elems[0]) || v.elems[0].Sym?)
    && RespondsToStr(v.elems[1])
    && RespondsToEach(v.elems[2])
    && (forall item | item in Each(v.elems[2]) ::
          RespondsToStr(BlockPair(item).0) && RespondsToStr(BlockPair(item).1))
    && IsStreamableBody(v.elems[3])
  }

  lemma RequestAcceptance(v: Value)
    ensures VerifiedRequest(v).Ok? <==> WellFormedRequest(v)
  {
    if v.Arr? && |v.elems| == 4 && RespondsToEach(v.elems[2]) {
      var items := Each(v.elems[2]);
      if forall item | item in items :: RespondsToStr(BlockPair(item).0) && RespondsToStr(BlockPair(item).1) {
        assert forall i :: 0 <= i < |items| ==> VerifiedHeader(items[i]).Ok?;
      } else {
        var item :| item in items && !(RespondsToStr(BlockPair(item).0) && RespondsToStr(BlockPair(item).1));
        var i :| 0 <= i < |items| && items[i] == item;
        assert VerifiedHeader(items[i]).Err?;
      }
    }
  }

  /** A canonical request is a fixed point of verification. */
  lemma CanonicalRequestVerifies(r: Request)
    requires IsCanonicalRequest(r)
    ensures VerifiedRequest(RequestValue(r)) == Ok(r)
  {
    PairsVerify(r.headers);
    UpcaseOfUpcased(r.httpMethod);
  }

  /** verified_request is idempotent: verifying its result again gives the same tuple. */
  lemma VerifiedRequestIdempotent(v: Value)
    requires VerifiedRequest(v).Ok?
    ensures VerifiedRequest(RequestValue(VerifiedRequest(v).value)) == VerifiedRequest(v)
  {
    CanonicalRequestVerifies(VerifiedRequest(v).value);
  }

  /** A canonical response is a fixed point of verification. */
  lemma CanonicalResponseVerifies(r: Response)
    requires IsCanonicalResponse(r)
    ensures VerifiedResponse(ResponseValue(r)) == Ok(r)
  {
    PairsVerify(r.headers);
  }

  /** verified_response is idempotent. */
  lemma VerifiedResponseIdempotent(v: Value)
    requires VerifiedResponse(v).Ok?
    ensures VerifiedResponse(ResponseValue(VerifiedResponse(v).value)) == VerifiedResponse(v)
  {
    CanonicalResponseVerifies(VerifiedResponse(v).value);
  }

  /** The headers come out as the same pairs, in the same order, with the
      same length, duplicates kept. */
  lemma VerifiedHeadersOfPairs(pairs: seq<Value>, i: int)
    requires VerifiedHeaders(Arr(pairs)).Ok? && 0 <= i < |pairs|
    ensures |VerifiedHeaders(Arr(pairs)).value| == |pairs|
    ensures pairs[i].Arr? && |pairs[i].elems| == 2 ==>
              VerifiedHeaders(Arr(pairs)).value[i] == (ToStr(pairs[i].elems[0]), ToStr(pairs[i].elems[1]))
  {
    assert VerifiedHeader(pairs[i]).Ok?;
  }

  /** A status given as a String is read with String#to_i, so a status that
      is not a number verifies as 0 and is left for the adapter to reject. */
  lemma StringStatus(s: string, headers: seq<Header>)
    ensures VerifiedResponse(Arr([Str(s), PairsValue(headers), Arr([Str("")])]))
            == Ok(Response(StringToI(s), headers, Arr([Str("")])))
  {
    PairsVerify(headers);
  }

  lemma BogusStatusIsZero()
    ensures VerifiedResponse(Arr([Str("BOGUS"), Arr([]), Arr([Str("")])])).value.status == 0
  {
    StringStatus("BOGUS", []);
    StringToIWithoutDigits("BOGUS");
  }

  /** An Integer status is read back from its decimal string. */
  lemma StatusStringRoundTrip(status: int)
    ensures StatusCode(Str(IntToString(status))) == Some(status)
  {
    StringToIOfIntToString(status);
  }

  /** The header lists of those examples, each with one bad entry. */
  lemma BadHeaderLists()
    ensures VerifiedHeaders(Arr([Int(42)])) == TypeErr(HeaderNameNotString)
    ensures VerifiedHeaders(Arr([Arr([Int(42), Str("value")])])) == TypeErr(HeaderNameNotString)
    ensures VerifiedHeaders(Arr([Arr([Str("X"), Int(42)])])) == TypeErr(HeaderValueNotString)
  {
    FirstBadHeader([Int(42)], 0);
    FirstBadHeader([Arr([Int(42), Str("value")])], 0);
    FirstBadHeader([Arr([Str("X"), Int(42)])], 0);
  }

  /** The candidate tuples the shared type-checking examples reject; every
      one raises TypeError. */
  lemma RejectedRequestShapes()
    ensures VerifiedRequest(Int(42)) == TypeErr(NotAnArray)
    ensures VerifiedRequest(Arr([Int(42)])) == TypeErr(WrongArity)
    ensures VerifiedRequest(Arr([Int(42), Int(42), Int(42), Int(42)])) == TypeErr(MethodNotString)
    ensures VerifiedRequest(Arr([Str("GET"), Int(42), Arr([]), Arr([Str("")])])) == TypeErr(UriNotString)
    ensures VerifiedRequest(Arr([Str("GET"), Str("/"), Int(42), Arr([Str("")])])) == TypeErr(HeadersNotEnumerable)
  {
  }

  lemma RejectedRequestParts()
    ensures VerifiedRequest(Arr([Str("GET"), Str("/"), Arr([Int(42)]), Arr([Str("")])])) == TypeErr(HeaderNameNotString)
    ensures VerifiedRequest(Arr([Str("GET"), Str("/"), Arr([Arr([Int(42), Str("value")])]), Arr([Str("")])])) == TypeErr(HeaderNameNotString)
    ensures VerifiedRequest(Arr([Str("GET"), Str("/"), Arr([Arr([Str("X"), Int(42)])]), Arr([Str("")])])) == TypeErr(HeaderValueNotString)
    ensures VerifiedRequest(Arr([Str("GET"), Str("/"), Arr([]), Int(42)])) == TypeErr(BodyNotEnumerable)
    ensures VerifiedRequest(Arr([Str("GET"), Str("/"), Arr([]), Str("")])) == TypeErr(BodyIsString)
  {
    BadHeaderLists();
  }

  lemma RejectedResponseShapes()
    ensures VerifiedResponse(Int(42)) == TypeErr(NotAnArray)
    ensures VerifiedResponse(Arr([Int(42)])) == TypeErr(WrongArity)
    ensures VerifiedResponse(Arr([Int(42), Int(42), Int(42)])) == TypeErr(HeadersNotEnumerable)
    ensures VerifiedResponse(Arr([Obj("Object", None, None, None), Arr([]), Arr([Str("")])])) == TypeErr(StatusNotInteger)
    ensures VerifiedResponse(Arr([Str(""), Int(42), Arr([Str("")])])) == TypeErr(HeadersNotEnumerable)
  {
  }

  lemma RejectedResponseParts()
    ensures VerifiedResponse(Arr([Int(200), Arr([Int(42)]), Arr([Str("")])])) == TypeErr(HeaderNameNotString)
    ensures VerifiedResponse(Arr([Int(200), Arr([Arr([Int(42), Str("value")])]), Arr([Str("")])])) == TypeErr(HeaderNameNotString)
    ensures VerifiedResponse(Arr([Int(200), Arr([Arr([Str("X"), Int(42)])]), Arr([Str("")])])) == TypeErr(HeaderValueNotString)
    ensures VerifiedResponse(Arr([Int(200), Arr([]), Int(42)])) == TypeErr(BodyNotEnumerable)
    ensures VerifiedResponse(Arr([Int(200), Arr([]), Str("")])) == TypeErr(BodyIsString)
  {
    BadHeaderLists();
  }

  // ---------------------------------------------------------------------
  // Verification, step by step as the source performs it

  /** The header loop: each yielded item is checked and appended to a fresh list. */
  method VerifyHeaders(headers: Value) returns (r: Result<seq<Header>>)
    ensures r == VerifiedHeaders(headers)
  {
    if !RespondsToEach(headers) {
      return TypeErr(HeadersNotEnumerable);
    }
    var items := Each(headers);
    var verified: seq<Header> := [];
    var i := 0;
    while i < |items|
      invariant 0 <= i <= |items|
      invariant VerifiedItems(items[..i]) == Ok(verified)
      invariant forall j :: 0 <= j < i ==> VerifiedHeader(items[j]).Ok?
    {
      assert items[..i + 1][..i] == items[..i];
      var pair := BlockPair(items[i]);
      if !RespondsToStr(pair.0) {
        FirstBadHeader(items, i);
        return TypeErr(HeaderNameNotString);
      }
      if !RespondsToStr(pair.1) {
        FirstBadHeader(items, i);
        return TypeErr(HeaderValueNotString);
      }
      verified := verified + [(ToStr(pair.0), ToStr(pair.1))];
      i := i + 1;
    }
    assert items[..i] == items;
    return Ok(verified);
  }

  method VerifyRequest(request: Value) returns (r: Result<Request>)
    ensures r == VerifiedRequest(request)
  {
    if !request.Arr? {
      return TypeErr(NotAnArray);
    }
    if |request.elems| != 4 {
      return TypeErr(WrongArity);
    }
    var m, uri, headers, body := request.elems[0], request.elems[1], request.elems[2], request.elems[3];
    if RespondsToStr(m) {
      m := Str(ToStr(m));
    }
    if m.Sym? {
      m := Str(m.name);
    }
    if !m.Str? {
      return TypeErr(MethodNotString);
    }
    var name := Upcase(m.s);
    if !RespondsToStr(uri) {
      return TypeErr(UriNotString);
    }
    var target := ToStr(uri);
    var verified := VerifyHeaders(headers);
    if verified.Err? {
      return Err(verified.error);
    }
    if body.Str? {
      return TypeErr(BodyIsString);
    }
    if !RespondsToEach(body) {
      return TypeErr(BodyNotEnumerable);
    }
    return Ok(Request(name, target, verified.value, body));
  }

  method VerifyResponse(response: Value) returns (r: Result<Response>)
    ensures r == VerifiedResponse(response)
  {
    if !response.Arr? {
      return TypeErr(NotAnArray);
    }
    if |response.elems| != 3 {
      return TypeErr(WrongArity);
    }
    var status, headers, body := response.elems[0], response.elems[1], response.elems[2];
    if RespondsToI(status) {
      status := ToI(status);
    }
    if !status.Int? {
      return TypeErr(StatusNotInteger);
    }
    var verified := VerifyHeaders(headers);
    if verified.Err? {
      return Err(verified.error);
    }
    if body.Str? {
      return TypeErr(BodyIsString);
    }
    if !RespondsToEach(body) {
      return TypeErr(BodyNotEnumerable);
    }
    return Ok(Response(status.i, verified.value, body));
  }

  // ---------------------------------------------------------------------
  // The mixin

  /** The `connection` argument of #transmit: an HTTPAdapter::Connection or
      any other Ruby value (nil when omitted). */
  datatype ConnectionArg = Wrapped(conn: ConnectionWrapper.Connection) | Plain(v: Value)

  /** A Connection, or a falsy value (nil or false): anything else is refused. */
  predicate AcceptableConnection(c: ConnectionArg) { c.Wrapped? || !Truthy(c.v) }

  /** An object that includes HTTPAdapter, described by the converters it
      implements (None: it does not respond to that method). A converter
      receives a verified tuple and may raise. */
  datatype Adapter<!NReq, !NResp> = Adapter(
    requestToA: Option<NReq -> Result<Value>>,
    requestFromA: Option<Request -> Result<NReq>>,
    responseToA: Option<NResp -> Result<Value>>,
    responseFromA: Option<Response -> Result<NResp>>,
    fetchResource: Option<(Request, ConnectionArg) -> Result<Value>>)

  /** #adapt_request: the converter runs first, then its result is verified. */
  function AdaptRequest<NReq, NResp>(a: Adapter<NReq, NResp>, obj: NReq): (r: Result<Request>)
    ensures a.requestToA.None? ==> r == TypeErr(MissingMethod("convert_request_to_a"))
    ensures a.requestToA.Some? && a.requestToA.value(obj).Err? ==> r == Err(a.requestToA.value(obj).error)
    ensures a.requestToA.Some? && a.requestToA.value(obj).Ok? ==> r == VerifiedRequest(a.requestToA.value(obj).value)
    ensures r.Ok? ==> IsCanonicalRequest(r.value) && VerifiedRequest(RequestValue(r.value)) == r
  {
    if a.requestToA.None? then TypeErr(MissingMethod("convert_request_to_a"))
    else
      var converted :- a.requestToA.value(obj);
      var r := VerifiedRequest(converted);
      if r.Ok? then CanonicalRequestVerifies(r.value); r else r
  }

  /** #specialize_request: the tuple is verified before the converter is
      even looked for, and the converter receives the verified tuple. */
  function SpecializeRequest<NReq, NResp>(a: Adapter<NReq, NResp>, request: Value): (r: Result<NReq>)
    ensures VerifiedRequest(request).Err? ==> r == Err(VerifiedRequest(request).error)
    ensures VerifiedRequest(request).Ok? && a.requestFromA.None? ==> r == TypeErr(MissingMethod("convert_request_from_a"))
    ensures VerifiedRequest(request).Ok? && a.requestFromA.Some? ==> r == a.requestFromA.value(VerifiedRequest(request).value)
  {
    var verified :- VerifiedRequest(request);
    if a.requestFromA.None? then TypeErr(MissingMethod("convert_request_from_a"))
    else a.requestFromA.value(verified)
  }

  /** #adapt_response */
  function AdaptResponse<NReq, NResp>(a: Adapter<NReq, NResp>, obj: NResp): (r: Result<Response>)
    ensures a.responseToA.None? ==> r == TypeErr(MissingMethod("convert_response_to_a"))
    ensures a.responseToA.Some? && a.responseToA.value(obj).Err? ==> r == Err(a.responseToA.value(obj).error)
    ensures a.responseToA.Some? && a.responseToA.value(obj).Ok? ==> r == VerifiedResponse(a.responseToA.value(obj).value)
    ensures r.Ok? ==> IsCanonicalResponse(r.value) && VerifiedResponse(ResponseValue(r.value)) == r
  {
    if a.responseToA.None? then TypeErr(MissingMethod("convert_response_to_a"))
    else
      var converted :- a.responseToA.value(obj);
      var r := VerifiedResponse(converted);
      if r.Ok? then CanonicalResponseVerifies(r.value); r else r
  }

  /** #specialize_response */
  function SpecializeResponse<NReq, NResp>(a: Adapter<NReq, NResp>, response: Value): (r: Result<NResp>)
    ensures VerifiedResponse(response).Err? ==> r == Err(VerifiedResponse(response).error)
    ensures VerifiedResponse(response).Ok? && a.responseFromA.None? ==> r == TypeErr(MissingMethod("convert_response_from_a"))
    ensures VerifiedResponse(response).Ok? && a.responseFromA.Some? ==> r == a.responseFromA.value(VerifiedResponse(response).value)
  {
    var verified :- VerifiedResponse(response);
    if a.responseFromA.None? then TypeErr(MissingMethod("convert_response_from_a"))
    else a.responseFromA.value(verified)
  }

  /** #transmit: verify the request, refuse a connection that is neither
      falsy nor a Connection, require #fetch_resource, and verify what it
      answers. */
  function Transmit<NReq, NResp>(a: Adapter<NReq, NResp>, request: Value, connection: ConnectionArg): (r: Result<Response>)
    ensures VerifiedRequest(request).Err? ==> r == Err(VerifiedRequest(request).error)
    ensures VerifiedRequest(request).Ok? && !AcceptableConnection(connection) ==> r == TypeErr(NotAConnection)
    ensures VerifiedRequest(request).Ok? && AcceptableConnection(connection) && a.fetchResource.None? ==>
              r == TypeErr(MissingMethod("fetch_resource"))
    ensures VerifiedRequest(request).Ok? && AcceptableConnection(connection) && a.fetchResource.Some? ==>
              var fetched := a.fetchResource.value(VerifiedRequest(request).value, connection);
              r == if fetched.Err? then Err(fetched.error) else VerifiedResponse(fetched.value)
    ensures r.Ok? ==> IsCanonicalResponse(r.value) && VerifiedResponse(ResponseValue(r.value)) == r
  {
    var verified :- VerifiedRequest(request);
    if !AcceptableConnection(connection) then TypeErr(NotAConnection)
    else if a.fetchResource.None? then TypeErr(MissingMethod("fetch_resource"))
    else
      var fetched :- a.fetchResource.value(verified, connection);
      var r := VerifiedResponse(fetched);
      if r.Ok? then CanonicalResponseVerifies(r.value); r else r
  }

  // ---------------------------------------------------------------------
  // The facade on the two adapters of its documentation

  /** An adapter that implements nothing. */
  function BogusAdapter<NReq, NResp>(): Adapter<NReq, NResp>
  {
    Adapter(None, None, None, None, None)
  }

  /** Every operation of an adapter that implements nothing raises
      TypeError, whatever the tuple. */
  lemma BogusAdapterRaises<NReq, NResp>(obj: NReq, resp: NResp)
    ensures AdaptRequest(BogusAdapter<NReq, NResp>(), obj).error.kind == TypeError
    ensures AdaptResponse(BogusAdapter<NReq, NResp>(), resp).error.kind == TypeError
    ensures SpecializeRequest(BogusAdapter<NReq, NResp>(), Arr([Str("GET"), Str("/"), Arr([]), Arr([Str("")])])).error.kind == TypeError
    ensures SpecializeResponse(BogusAdapter<NReq, NResp>(), Arr([Int(200), Arr([]), Arr([Str("")])])).error.kind == TypeError
    ensures Transmit(BogusAdapter<NReq, NResp>(), Arr([Str("GET"), Str("/"), Arr([]), Arr([Str("")])]), Plain(Nil)).error.kind == TypeError
  {
  }

  /** A tuple the verifier rejects is rejected by every operation that
      takes a tuple, whatever the adapter implements and before any of
      its methods is called. */
  lemma InvalidTupleRejected<NReq, NResp>(a: Adapter<NReq, NResp>, request: Value, response: Value, connection: ConnectionArg)
    requires VerifiedRequest(request).Err? && VerifiedResponse(response).Err?
    ensures SpecializeRequest(a, request).Err? && SpecializeRequest(a, request).error == VerifiedRequest(request).error
    ensures Transmit(a, request, connection).Err? && Transmit(a, request, connection).error == VerifiedRequest(request).error
    ensures SpecializeResponse(a, response).Err? && SpecializeResponse(a, response).error == VerifiedResponse(response).error
  {
  }

  /** A truthy connection that is not a Connection, such as 42, is refused
      once the request verifies, whatever the adapter implements. */
  lemma NonConnectionRefused<NReq, NResp>(a: Adapter<NReq, NResp>, request: Value)
    requires VerifiedRequest(request).Ok?
    ensures Transmit(a, request, Plain(Int(42))) == TypeErr(NotAConnection)
  {
  }
}
