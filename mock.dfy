/** HTTPAdapter::MockAdapter.create: an adapter whose only method is a
    #fetch_resource that calls the given block and answers its result when
    that result responds to #each, and a plain 200 response otherwise. */
module Mock {
  import opened Values
  import opened HttpAdapter

  /** `[200, [], ['']]` */
  const DefaultResponse: Value := Arr([Int(200), Arr([]), Arr([Str("")])])

  /** The generated #fetch_resource; the block is `callback`, which
      receives the verified request tuple and the connection. */
  function FetchResource(callback: (Request, ConnectionArg) -> Result<Value>, request: Request, connection: ConnectionArg): (r: Result<Value>)
    ensures callback(request, connection).Err? ==> r == callback(request, connection)
    ensures callback(request, connection).Ok? && RespondsToEach(callback(request, connection).value) ==> r == callback(request, connection)
    ensures callback(request, connection).Ok? && !RespondsToEach(callback(request, connection).value) ==> r == Ok(DefaultResponse)
  {
    var response :- callback(request, connection);
    if RespondsToEach(response) then Ok(response) else Ok(DefaultResponse)
  }

  /** The adapter MockAdapter.create returns: no converters, only
      #fetch_resource. */
  function MockAdapter<NReq, NResp>(callback: (Request, ConnectionArg) -> Result<Value>): (a: Adapter<NReq, NResp>)
    ensures a.requestToA.None? && a.requestFromA.None? && a.responseToA.None? && a.responseFromA.None?
    ensures a.fetchResource.Some?
  {
    Adapter(None, None, None, None, Some((request, connection) => FetchResource(callback, request, connection)))
  }

  /** A block that answers something without #each, such as nil, yields
      the default 200 response with no headers and an empty body. */
  lemma DefaultWhenNotEnumerable(callback: (Request, ConnectionArg) -> Result<Value>, request: Value)
    requires VerifiedRequest(request).Ok?
    requires callback(VerifiedRequest(request).value, Plain(Nil)) == Ok(Nil)
    ensures Transmit(MockAdapter<Value, Value>(callback), request, Plain(Nil)) == Ok(Response(200, [], Arr([Str("")])))
  {
    MockTransmit(callback, request, Plain(Nil));
    assert VerifiedResponse(DefaultResponse) == Ok(Response(200, [], Arr([Str("")]))) by {
      assert VerifiedHeaders(Arr([])) == Ok([]);
    }
  }

  /** A block that answers a response tuple has it transmitted, verified:
      a 400 stays a 400. */
  lemma BlockResponsePassesThrough(callback: (Request, ConnectionArg) -> Result<Value>, request: Value)
    requires VerifiedRequest(request).Ok?
    requires callback(VerifiedRequest(request).value, Plain(Nil)) == Ok(Arr([Int(400), Arr([]), Arr([Str("")])]))
    ensures Transmit(MockAdapter<Value, Value>(callback), request, Plain(Nil)) == Ok(Response(400, [], Arr([Str("")])))
  {
    MockTransmit(callback, request, Plain(Nil));
    assert VerifiedResponse(Arr([Int(400), Arr([]), Arr([Str("")])])) == Ok(Response(400, [], Arr([Str("")]))) by {
      assert VerifiedHeaders(Arr([])) == Ok([]);
    }
  }

  /** Whatever the block answers, transmission through a mock gives a
      verified response or an error: the block's own, or the one
      verification raises on what it answered. */
  lemma MockTransmit(callback: (Request, ConnectionArg) -> Result<Value>, request: Value, connection: ConnectionArg)
    requires VerifiedRequest(request).Ok? && AcceptableConnection(connection)
    ensures var answer := callback(VerifiedRequest(request).value, connection);
            var r := Transmit(MockAdapter<Value, Value>(callback), request, connection);
            && (answer.Err? ==> r == Err(answer.error))
            && (answer.Ok? && RespondsToEach(answer.value) ==> r == VerifiedResponse(answer.value))
            && (answer.Ok? && !RespondsToEach(answer.value) ==> r == VerifiedResponse(DefaultResponse))
  {
  }

  /** A mock converts nothing: adapting and specializing raise TypeError. */
  lemma MockConvertsNothing<NReq, NResp>(callback: (Request, ConnectionArg) -> Result<Value>, obj: NReq, resp: NResp, request: Value, response: Value)
    requires VerifiedRequest(request).Ok? && VerifiedResponse(response).Ok?
    ensures AdaptRequest(MockAdapter<NReq, NResp>(callback), obj) == TypeErr(MissingMethod("convert_request_to_a"))
    ensures AdaptResponse(MockAdapter<NReq, NResp>(callback), resp) == TypeErr(MissingMethod("convert_response_to_a"))
    ensures SpecializeRequest(MockAdapter<NReq, NResp>(callback), request) == TypeErr(MissingMethod("convert_request_from_a"))
    ensures SpecializeResponse(MockAdapter<NReq, NResp>(callback), response) == TypeErr(MissingMethod("convert_response_from_a"))
  {
  }
}
