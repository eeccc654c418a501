/** HTTPAdapter::Connection: a host, a port and an opaque handle to some
    transport, with open/close/join forwarded to the handle when configured. */
module ConnectionWrapper {
  import opened Values

  /** The lifecycle operations a Connection can forward. */
  datatype Operation = Open | Close | Join

  /** An `options` entry `[method, args, block]`; a nil method or nil args
      fall back to the defaults. */
  datatype Invocation = Invocation(methodName: Option<string>, args: Option<seq<Value>>, block: Value)

  /** The message `handle.send(method, *args, &block)` that a configured
      operation sends. The model returns this message; the handle's answer
      to it is not modelled. */
  datatype Send = Send(receiver: Value, methodName: string, args: seq<Value>, block: Value)

  /** The method an operation sends when its entry names none: its own name. */
  function DefaultMethodName(op: Operation): string
  {
    match op
    case Open => "open"
    case Close => "close"
    case Join => "join"
  }

  /** The argument checks of Connection#initialize, in the order it makes
      them; the host and port to store when they pass. */
  function ValidatedEndpoint(host: Value, port: Value): (r: Result<(string, int)>)
    ensures !RespondsToStr(host) ==> r == TypeErr(HostNotString)
    ensures RespondsToStr(host) && (port.Sym? || !RespondsToI(port)) ==> r == TypeErr(PortNotInteger)
    ensures r.Ok? ==> 1 <= r.value.1 <= 65535
    ensures r.Ok? <==> RespondsToStr(host) && !port.Sym? && RespondsToI(port)
                       && ToI(port).Int? && 1 <= ToI(port).i <= 65535
    ensures r.Ok? ==> r.value == (ToStr(host), ToI(port).i)
    ensures r.Err? && RespondsToStr(host) && !port.Sym? && RespondsToI(port) ==> r.error == Error(ArgumentError, InvalidPort)
  {
    if !RespondsToStr(host) then TypeErr(HostNotString)
    else if port.Sym? || !RespondsToI(port) then TypeErr(PortNotInteger)
    else
      var p := ToI(port);
      if p.Int? && 1 <= p.i <= 65535 then Ok((ToStr(host), p.i))
      else Err(Error(ArgumentError, InvalidPort))
  }

  class Connection {
    const host: string
    const port: int
    /** The wrapped transport handle (the `connection` reader). */
    const connection: Value
    const options: map<Operation, Invocation>

    ghost predicate Valid() { 1 <= port <= 65535 }

    constructor (host: string, port: int, connection: Value, options: map<Operation, Invocation>)
      requires 1 <= port <= 65535
      ensures Valid()
      ensures this.host == host && this.port == port
      ensures this.connection == connection && this.options == options
    {
      this.host := host;
      this.port := port;
      this.connection := connection;
      this.options := options;
    }

    /** What an operation does: nothing (answering nil) when it is not
        configured, otherwise the message it sends to the wrapped handle. */
    function Forwarded(op: Operation): (r: Option<Send>)
      ensures r.None? <==> op !in options
      ensures r.Some? ==> r.value.receiver == connection
      ensures r.Some? ==> r.value.methodName == options[op].methodName.GetOr(DefaultMethodName(op))
      ensures r.Some? ==> r.value.args == options[op].args.GetOr([])
      ensures r.Some? ==> r.value.block == options[op].block
    {
      if op in options then
        var entry := options[op];
        Some(Send(connection, entry.methodName.GetOr(DefaultMethodName(op)), entry.args.GetOr([]), entry.block))
      else None
    }

    /** Connection#open */
    method Open() returns (r: Option<Send>)
      ensures r == Forwarded(Operation.Open)
    {
      r := Dispatch(Operation.Open);
    }

    /** Connection#close */
    method Close() returns (r: Option<Send>)
      ensures r == Forwarded(Operation.Close)
    {
      r := Dispatch(Operation.Close);
    }

    /** Connection#join */
    method Join() returns (r: Option<Send>)
      ensures r == Forwarded(Operation.Join)
    {
      r := Dispatch(Operation.Join);
    }

    /** The step the three operations share: read the entry, fill in the
        defaults, build the message. */
    method Dispatch(op: Operation) returns (r: Option<Send>)
      ensures r == Forwarded(op)
    {
      if op in options {
        var entry := options[op];
        var name := if entry.methodName.Some? then entry.methodName.value else DefaultMethodName(op);
        var args := if entry.args.Some? then entry.args.value else [];
        r := Some(Send(connection, name, args, entry.block));
      } else {
        r := None;
      }
    }
  }

  /** Connection.new: validates host and port, then stores them with the
      handle and the options. */
  method NewConnection(host: Value, port: Value, handle: Value, options: map<Operation, Invocation>)
    returns (r: Result<Connection>)
    ensures r.Err? <==> ValidatedEndpoint(host, port).Err?
    ensures r.Err? ==> r.error == ValidatedEndpoint(host, port).error
    ensures r.Ok? ==> fresh(r.value) && r.value.Valid()
    ensures r.Ok? ==> (r.value.host, r.value.port) == ValidatedEndpoint(host, port).value
    ensures r.Ok? ==> r.value.connection == handle && r.value.options == options
  {
    var endpoint := ValidatedEndpoint(host, port);
    if endpoint.Err? {
      return Err(endpoint.error);
    }
    var c := new Connection(endpoint.value.0, endpoint.value.1, handle, options);
    return Ok(c);
  }

  /** A port given as the String "80" is accepted as 80 (connection_spec). */
  lemma StringPortAccepted()
    ensures ValidatedEndpoint(Str("www.example.com"), Str("80")) == Ok(("www.example.com", 80))
  {
    assert Numerals.NatToString(80) == "80";
    Numerals.StringToIOfIntToString(80);
  }

  /** A port given as the String "65536" reads as 65536, out of range. */
  lemma StringPortOutOfRange()
    ensures ValidatedEndpoint(Str("www.example.com"), Str("65536")) == Err(Error(ArgumentError, InvalidPort))
  {
    assert Numerals.NatToString(65536) == "65536" by {
      assert Numerals.NatToString(6) == "6";
      assert Numerals.NatToString(65) == "65";
      assert Numerals.NatToString(655) == "655";
      assert Numerals.NatToString(6553) == "6553";
    }
    Numerals.StringToIOfIntToString(65536);
  }

  /** 0 and 65536 are out of range; a Symbol port and a non-String host are
      type errors. */
  lemma BadEndpointsRejected()
    ensures ValidatedEndpoint(Str("www.example.com"), Int(0)) == Err(Error(ArgumentError, InvalidPort))
    ensures ValidatedEndpoint(Str("www.example.com"), Int(65536)) == Err(Error(ArgumentError, InvalidPort))
    ensures ValidatedEndpoint(Str("www.example.com"), Sym("bogus")) == TypeErr(PortNotInteger)
    ensures ValidatedEndpoint(Int(42), Int(80)) == TypeErr(HostNotString)
  {
  }
}
