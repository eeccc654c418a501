/** HTTPAdapter::TyphoeusAdapter: tuples to and from Typhoeus::Request and
    Typhoeus::Response. A request keeps its headers as a Hash and its body
    as one string (nil when empty); a response keeps its headers as the
    text block of an HTTP message, read back by Typhoeus's #headers_hash. */
module Typhoeus {
  import opened Values
  import opened Text
  import opened Numerals
  import opened Hashes
  import opened Uris
  import opened Bodies
  import opened HttpAdapter

  /** A value of #headers_hash: one string, or an Array for a header that
      appears several times. */
  datatype HeaderValue = One(s: string) | Many(values: seq<string>)

  /** Typhoeus::Request and Typhoeus::Response as far as the adapter reads
      and writes them; `httpMethod` is the name of the method Symbol. */
  datatype TyphoeusObject =
    | TyRequest(url: string, httpMethod: string, headers: Hash<string>, body: Option<string>)
    | TyResponse(code: int, headerText: string, body: Option<string>)
    | Foreign(v: Value)

  // ---------------------------------------------------------------------
  // Requests

  /** #convert_request_to_a: the method upcased, the URL, the headers as
      pairs in the Hash's order and the body, nil read as "", as the only
      chunk. */
  function ConvertRequestToA(obj: TyphoeusObject): (r: Result<Value>)
    ensures !obj.TyRequest? <==> r.Err?
    ensures r.Err? ==> r.error == Error(TypeError, WrongNativeClass("Typhoeus::Request"))
  {
    if !obj.TyRequest? then TypeErr(WrongNativeClass("Typhoeus::Request"))
    else Ok(Arr([Str(Upcase(ToS(Sym(obj.httpMethod)))), Str(obj.url), PairsValue(obj.headers), Arr([Str(obj.body.GetOr(""))])]))
  }

  /** The tuple of a Typhoeus request verifies: the method upcased, the
      URL, the Hash's pairs in order and the body, nil read as "", as the
      only chunk. */
  lemma RequestToAVerifies(obj: TyphoeusObject)
    requires obj.TyRequest?
    ensures VerifiedRequest(ConvertRequestToA(obj).value)
            == Ok(Request(Upcase(obj.httpMethod), obj.url, obj.headers, Arr([Str(obj.body.GetOr(""))])))
  {
    StringRequestVerifies(Upcase(obj.httpMethod), obj.url, obj.headers, obj.body.GetOr(""));
    UpcaseIdempotent(obj.httpMethod);
  }

  /** #convert_request_from_a: the method in lower case, the URI rendered
      again, the headers made a Hash (a later duplicate name overriding an
      earlier one) and the chunks merged, an empty merge becoming nil.
      Addressable's parser is the parameter `parse`. */
  function ConvertRequestFromA(parse: string -> Uri, request: Request): (r: Result<TyphoeusObject>)
    ensures r.Ok? <==> MergedBody(request.body).Ok?
    ensures r.Err? ==> r.error == MergedBody(request.body).error
    ensures r.Ok? ==> && r.value.TyRequest?
                      && r.value.httpMethod == Downcase(request.httpMethod)
                      && r.value.url == Render(parse(request.uri))
                      && r.value.headers == FromPairs(request.headers)
                      && (r.value.body == None <==> MergedBody(request.body).value == "")
                      && r.value.body.GetOr("") == MergedBody(request.body).value
  {
    var merged :- MergedBody(request.body);
    Ok(TyRequest(Render(parse(request.uri)), Downcase(request.httpMethod), FromPairs(request.headers),
                 if merged == "" then None else Some(merged)))
  }

  /** The body drained by a loop, as the converter does, with an empty
      result becoming nil. */
  method RequestBody(body: Value) returns (r: Result<Option<string>>)
    ensures MergedBody(body).Err? ==> r == Err(MergedBody(body).error)
    ensures MergedBody(body).Ok? ==> r == Ok(if MergedBody(body).value == "" then None else Some(MergedBody(body).value))
  {
    var merged := MergeBody(body);
    if merged.Err? {
      return Err(merged.error);
    }
    if merged.value == "" {
      return Ok(None);
    }
    return Ok(Some(merged.value));
  }

  /** The loop of #convert_request_to_a copying the request's header pairs
      in the order the Hash yields them. */
  method CopyHeaders(headers: seq<Header>) returns (copied: seq<Header>)
    ensures copied == headers
  {
    copied := [];
    var i := 0;
    while i < |headers|
      invariant 0 <= i <= |headers|
      invariant copied == headers[..i]
    {
      copied := copied + [headers[i]];
      i := i + 1;
    }
    assert headers[..i] == headers;
  }

  /** A verified request comes back from Typhoeus with the method in
      upper case, the URI as rendered, the headers as the Hash made of them
      (the list itself when the names are distinct) and the body merged
      into one chunk. */
  lemma RequestRoundTrip(parse: string -> Uri, request: Request)
    requires IsCanonicalRequest(request)
    requires ConvertRequestFromA(parse, request).Ok?
    ensures var back := ConvertRequestToA(ConvertRequestFromA(parse, request).value);
            back.Ok? &&
            VerifiedRequest(back.value) == Ok(Request(request.httpMethod, Render(parse(request.uri)),
                                                      FromPairs(request.headers),
                                                      Arr([Str(MergedBody(request.body).value)])))
    ensures UniqueKeys(request.headers) ==> FromPairs(request.headers) == request.headers
  {
    RequestToAVerifies(ConvertRequestFromA(parse, request).value);
    UpcaseDowncase(request.httpMethod);
    UpcaseOfUpcased(request.httpMethod);
    if UniqueKeys(request.headers) {
      FromUniquePairs(request.headers);
    }
  }

  /** A request with no body chunks, or only empty ones, has a nil body. */
  lemma EmptyBodyIsNil(parse: string -> Uri, request: Request)
    requires request.body.Arr? && forall i :: 0 <= i < |request.body.elems| ==> request.body.elems[i] == Str("")
    ensures ConvertRequestFromA(parse, request).Ok? && ConvertRequestFromA(parse, request).value.body == None
  {
    var chunks := request.body.elems;
    MergeChunksConcat(chunks);
    ConcatEmpty(ChunkTexts(chunks));
  }

  // ---------------------------------------------------------------------
  // Responses: the header block

  /** One header written as a line of the block: `"#{h}: #{v}\r\n"`. */
  function HeaderLine(h: Header): string
  {
    h.0 + ": " + h.1 + "\r\n"
  }

  /** The block the inject builds: every header's line, in order. */
  function HeaderBlock(headers: seq<Header>): string
  {
    if headers == [] then "" else HeaderBlock(headers[..|headers| - 1]) + HeaderLine(headers[|headers| - 1])
  }

  /** The accumulator loop of the inject. */
  method WriteHeaderBlock(headers: seq<Header>) returns (block: string)
    ensures block == HeaderBlock(headers)
  {
    block := "";
    var i := 0;
    while i < |headers|
      invariant 0 <= i <= |headers|
      invariant block == HeaderBlock(headers[..i])
    {
      assert headers[..i + 1][..i] == headers[..i];
      var (h, v) := headers[i];
      block := block + (h + ": " + v + "\r\n");
      i := i + 1;
    }
    assert headers[..i] == headers;
  }

  /** The position of the first ':' of a line, or its length when it has
      none. */
  function ColonIndex(s: string): (r: nat)
    ensures r <= |s|
    ensures r < |s| ==> s[r] == ':'
    ensures forall i :: 0 <= i < r ==> s[i] != ':'
  {
    if s == [] then 0 else if s[0] == ':' then 0 else 1 + ColonIndex(s[1..])
  }

  /** A field line `name: value` ending in a carriage return, read back. */
  function ParseFieldLine(l: string): (r: Option<Header>)
    ensures r.Some? ==> ':' !in r.value.0
  {
    var i := ColonIndex(l);
    if i + 2 < |l| && l[i + 1] == ' ' && l[|l| - 1] == '\r' then
      assert forall c :: c in l[..i] ==> c != ':';
      Some((l[..i], l[i + 2..|l| - 1]))
    else None
  }

  function ParseFieldLines(ls: seq<string>): (r: Option<seq<Header>>)
    ensures r.Some? ==> |r.value| == |ls|
  {
    if ls == [] then Some([])
    else
      var init := ParseFieldLines(ls[..|ls| - 1]);
      var last := ParseFieldLine(ls[|ls| - 1]);
      if init.None? || last.None? then None else Some(init.value + [last.value])
  }

  /** The block read as the field lines of an HTTP message (section 3.2 of
      RFC 7230): lines ended by CR LF, each `name: value`; None when the
      text is not such a block. */
  function ParseHeaderBlock(block: string): Option<seq<Header>>
  {
    var ls := Split(block, '\n');
    if ls[|ls| - 1] != "" then None else ParseFieldLines(ls[..|ls| - 1])
  }

  /** A header whose name has no colon and which has no line break in it
      can be written as one line. */
  predicate IsWritableHeader(h: Header) { ':' !in h.0 && '\n' !in h.0 && '\n' !in h.1 }

  /** The line of a header without its line feed. */
  function FieldLine(h: Header): string { h.0 + ": " + h.1 + "\r" }

  /** A writable header's line has no line feed in it. */
  lemma FieldLineNoBreak(h: Header)
    requires IsWritableHeader(h)
    ensures '\n' !in FieldLine(h)
  {
    var l := FieldLine(h);
    assert l == h.0 + [':', ' '] + h.1 + ['\r'];
    forall i | 0 <= i < |l| ensures l[i] != '\n' {
      if i < |h.0| {
        assert l[i] == h.0[i];
      } else if |h.0| + 2 <= i < |h.0| + 2 + |h.1| {
        assert l[i] == h.1[i - |h.0| - 2];
      }
    }
  }

  lemma {:induction false} ColonIndexAfter(n: string, rest: string)
    requires ':' !in n
    ensures ColonIndex(n + [':'] + rest) == |n|
  {
    if n != [] {
      assert (n + [':'] + rest)[1..] == n[1..] + [':'] + rest;
      ColonIndexAfter(n[1..], rest);
    }
  }

  lemma FieldLineParses(h: Header)
    requires ':' !in h.0
    ensures ParseFieldLine(FieldLine(h)) == Some(h)
  {
    var l := FieldLine(h);
    assert l == h.0 + [':'] + (" " + h.1 + "\r");
    ColonIndexAfter(h.0, " " + h.1 + "\r");
    assert l[..|h.0|] == h.0;
    assert l[|h.0| + 2..|l| - 1] == h.1;
  }

  /** The lines of the headers, without their line feeds. */
  function FieldLines(hs: seq<Header>): (r: seq<string>)
    ensures |r| == |hs|
    ensures forall i :: 0 <= i < |hs| ==> r[i] == FieldLine(hs[i])
  {
    seq(|hs|, i requires 0 <= i < |hs| => FieldLine(hs[i]))
  }

  lemma {:induction false} FieldLinesParse(hs: seq<Header>)
    requires forall i :: 0 <= i < |hs| ==> ':' !in hs[i].0
    ensures ParseFieldLines(FieldLines(hs)) == Some(hs)
  {
    if hs != [] {
      var init := hs[..|hs| - 1];
      var last := hs[|hs| - 1];
      var ls := FieldLines(hs);
      FieldLinesParse(init);
      assert ls[..|ls| - 1] == FieldLines(init);
      assert ls[|ls| - 1] == FieldLine(last);
      FieldLineParses(last);
      assert init + [last] == hs;
    }
  }

  lemma {:induction false} HeaderBlockLines(hs: seq<Header>)
    ensures HeaderBlock(hs) == Concat(seq(|hs|, i requires 0 <= i < |hs| => FieldLine(hs[i]) + "\n"))
  {
    var ts := seq(|hs|, i requires 0 <= i < |hs| => FieldLine(hs[i]) + "\n");
    if hs != [] {
      var init := hs[..|hs| - 1];
      HeaderBlockLines(init);
      assert ts[..|ts| - 1] == seq(|init|, i requires 0 <= i < |init| => FieldLine(init[i]) + "\n");
      assert HeaderLine(hs[|hs| - 1]) == FieldLine(hs[|hs| - 1]) + "\n";
    }
  }

  /** The block is the header lines and a last empty line joined by line feeds. */
  lemma BlockAsJoin(hs: seq<Header>)
    ensures HeaderBlock(hs) == Join(FieldLines(hs) + [""], '\n')
  {
    var q := FieldLines(hs) + [""];
    HeaderBlockLines(hs);
    TerminatedConcat(q, '\n');
    assert seq(|q| - 1, i requires 0 <= i < |q| - 1 => q[i] + ['\n'])
           == seq(|hs|, i requires 0 <= i < |hs| => FieldLine(hs[i]) + "\n");
  }

  /** Splitting the block at line feeds gives back the header lines and a
      last empty line. */
  lemma SplitBlock(hs: seq<Header>)
    requires forall i :: 0 <= i < |hs| ==> IsWritableHeader(hs[i])
    ensures Split(HeaderBlock(hs), '\n') == FieldLines(hs) + [""]
  {
    var q := FieldLines(hs) + [""];
    LinesNoBreak(hs);
    SplitJoin(q, '\n');
    BlockAsJoin(hs);
  }

  /** No header line, nor the closing empty line, holds a line feed. */
  lemma LinesNoBreak(hs: seq<Header>)
    requires forall i :: 0 <= i < |hs| ==> IsWritableHeader(hs[i])
    ensures forall k :: 0 <= k < |hs| + 1 ==> '\n' !in (FieldLines(hs) + [""])[k]
  {
    var q := FieldLines(hs) + [""];
    forall k | 0 <= k < |q| ensures '\n' !in q[k] {
      if k < |hs| {
        assert q[k] == FieldLine(hs[k]);
        FieldLineNoBreak(hs[k]);
      } else {
        assert q[k] == "";
      }
    }
  }

  /** The block reads back as the headers it was written from. */
  lemma HeaderBlockRoundTrip(hs: seq<Header>)
    requires forall i :: 0 <= i < |hs| ==> IsWritableHeader(hs[i])
    ensures ParseHeaderBlock(HeaderBlock(hs)) == Some(hs)
  {
    var q := FieldLines(hs) + [""];
    SplitBlock(hs);
    assert q[..|q| - 1] == FieldLines(hs);
    FieldLinesParse(hs);
  }

  // ---------------------------------------------------------------------
  // Responses: the converters

  /** `header =~ /^HTTP\/\d\.\d \d{3} .+$/` on one line. */
  predicate IsStatusLine(l: string)
  {
    && |l| >= 14
    && l[..5] == "HTTP/" && IsDigit(l[5]) && l[6] == '.' && IsDigit(l[7]) && l[8] == ' '
    && IsDigit(l[9]) && IsDigit(l[10]) && IsDigit(l[11]) && l[12] == ' '
  }

  /** A name some line of which reads like a status line: the anchors of
      the pattern match at line breaks. */
  predicate IsStatusName(name: string)
  {
    exists k :: 0 <= k < |Split(name, '\n')| && IsStatusLine(Split(name, '\n')[k])
  }

  /** The pairs one entry of #headers_hash yields: none for a status line,
      one per value of an Array, in order, and one for any other value. */
  function EntryPairs(name: string, value: HeaderValue): (r: seq<Header>)
    ensures IsStatusName(name) ==> r == []
    ensures forall i :: 0 <= i < |r| ==> r[i].0 == name
  {
    if IsStatusName(name) then []
    else match value
      case One(s) => [(name, s)]
      case Many(values) => seq(|values|, i requires 0 <= i < |values| => (name, values[i]))
  }

  /** The header pairs of a #headers_hash, entry after entry. */
  function FlattenHeaders(hh: seq<(string, HeaderValue)>): seq<Header>
  {
    if hh == [] then [] else FlattenHeaders(hh[..|hh| - 1]) + EntryPairs(hh[|hh| - 1].0, hh[|hh| - 1].1)
  }

  /** A pair is produced exactly when some entry that is not a status line
      has that name and holds that value, alone or in its Array. */
  lemma {:induction false} FlattenHeadersMembers(hh: seq<(string, HeaderValue)>, h: Header)
    ensures h in FlattenHeaders(hh) <==>
              exists i :: 0 <= i < |hh| && hh[i].0 == h.0 && !IsStatusName(h.0)
                          && (hh[i].1 == One(h.1) || (hh[i].1.Many? && h.1 in hh[i].1.values))
  {
    if hh != [] {
      var init := hh[..|hh| - 1];
      var last := hh[|hh| - 1];
      FlattenHeadersMembers(init, h);
      assert h in EntryPairs(last.0, last.1) <==>
               last.0 == h.0 && !IsStatusName(h.0) && (last.1 == One(h.1) || (last.1.Many? && h.1 in last.1.values)) by {
        if last.1.Many? && h.1 in last.1.values && last.0 == h.0 && !IsStatusName(h.0) {
          var j :| 0 <= j < |last.1.values| && last.1.values[j] == h.1;
          assert EntryPairs(last.0, last.1)[j] == h;
        }
      }
      forall i | 0 <= i < |init| ensures init[i] == hh[i] { }
    }
  }

  /** Entries holding one value each, none of them a status line, give
      their own pairs in order. */
  lemma {:induction false} FlattenSingleValues(hh: seq<(string, HeaderValue)>)
    requires forall i :: 0 <= i < |hh| ==> hh[i].1.One? && !IsStatusName(hh[i].0)
    ensures FlattenHeaders(hh) == seq(|hh|, i requires 0 <= i < |hh| => (hh[i].0, hh[i].1.s))
  {
    if hh != [] {
      FlattenSingleValues(hh[..|hh| - 1]);
    }
  }

  /** The nested loops of #convert_response_to_a. */
  method CollectHeaders(hh: seq<(string, HeaderValue)>) returns (headers: seq<Header>)
    ensures headers == FlattenHeaders(hh)
  {
    headers := [];
    var i := 0;
    while i < |hh|
      invariant 0 <= i <= |hh|
      invariant headers == FlattenHeaders(hh[..i])
    {
      var (header, value) := hh[i];
      ghost var start := headers;
      if !IsStatusName(header) {
        if value.Many? {
          headers := AppendRepeated(headers, header, value.values);
        } else {
          headers := headers + [(header, value.s)];
        }
      }
      assert headers == start + EntryPairs(header, value);
      FlattenPrefix(hh, i);
      i := i + 1;
    }
    assert hh[..i] == hh;
  }

  /** The inner loop of #convert_response_to_a: one header per repeated
      value, in order, after the headers so far. */
  method AppendRepeated(start: seq<Header>, name: string, values: seq<string>) returns (headers: seq<Header>)
    ensures headers == start + seq(|values|, k requires 0 <= k < |values| => (name, values[k]))
  {
    headers := start;
    var j := 0;
    while j < |values|
      invariant 0 <= j <= |values|
      invariant headers == start + seq(j, k requires 0 <= k < j => (name, values[k]))
    {
      headers := headers + [(name, values[j])];
      j := j + 1;
    }
  }

  /** One more entry adds its own pairs. */
  lemma FlattenPrefix(hh: seq<(string, HeaderValue)>, i: nat)
    requires i < |hh|
    ensures FlattenHeaders(hh[..i + 1]) == FlattenHeaders(hh[..i]) + EntryPairs(hh[i].0, hh[i].1)
  {
    assert hh[..i + 1][..i] == hh[..i];
  }

  /** #convert_response_to_a: the code, the headers of #headers_hash (the
      parameter `headersHash`, Typhoeus's reading of the header text) and
      the body, nil read as "", as the only chunk. */
  function ConvertResponseToA(headersHash: string -> seq<(string, HeaderValue)>, obj: TyphoeusObject): (r: Result<Value>)
    ensures !obj.TyResponse? <==> r.Err?
    ensures r.Err? ==> r.error == Error(TypeError, WrongNativeClass("Typhoeus::Response"))
    ensures r.Ok? ==> VerifiedResponse(r.value) ==
                        Ok(Response(obj.code, FlattenHeaders(headersHash(obj.headerText)), Arr([Str(obj.body.GetOr(""))])))
  {
    if !obj.TyResponse? then TypeErr(WrongNativeClass("Typhoeus::Response"))
    else
      var headers := FlattenHeaders(headersHash(obj.headerText));
      PairsVerify(headers);
      Ok(Arr([Int(obj.code), PairsValue(headers), Arr([Str(obj.body.GetOr(""))])]))
  }

  /** #convert_response_from_a: the status, the header block and the merged
      body, which stays a String even when empty. */
  function ConvertResponseFromA(response: Response): (r: Result<TyphoeusObject>)
    ensures r.Ok? <==> MergedBody(response.body).Ok?
    ensures r.Err? ==> r.error == MergedBody(response.body).error
    ensures r.Ok? ==> r.value == TyResponse(response.status, HeaderBlock(response.headers), Some(MergedBody(response.body).value))
  {
    var merged :- MergedBody(response.body);
    Ok(TyResponse(response.status, HeaderBlock(response.headers), Some(merged)))
  }

  /** A response comes back from Typhoeus with its status, the headers
      Typhoeus reads from the block, and its body merged into one chunk;
      the block holds the headers themselves when each fits on a line. */
  lemma ResponseRoundTrip(headersHash: string -> seq<(string, HeaderValue)>, response: Response)
    requires ConvertResponseFromA(response).Ok?
    ensures var back := ConvertResponseToA(headersHash, ConvertResponseFromA(response).value);
            var block := HeaderBlock(response.headers);
            back.Ok? &&
            VerifiedResponse(back.value) == Ok(Response(response.status, FlattenHeaders(headersHash(block)),
                                                        Arr([Str(MergedBody(response.body).value)])))
    ensures (forall i :: 0 <= i < |response.headers| ==> IsWritableHeader(response.headers[i])) ==>
              ParseHeaderBlock(HeaderBlock(response.headers)) == Some(response.headers)
  {
    if forall i :: 0 <= i < |response.headers| ==> IsWritableHeader(response.headers[i]) {
      HeaderBlockRoundTrip(response.headers);
    }
  }

  /** The #headers_hash of a block that holds each header once: one single
      value per line, in the order of the lines. */
  function SingleEntries(headers: seq<Header>): (r: seq<(string, HeaderValue)>)
    ensures |r| == |headers|
    ensures forall i :: 0 <= i < |r| ==> r[i] == (headers[i].0, One(headers[i].1))
  {
    seq(|headers|, i requires 0 <= i < |headers| => (headers[i].0, One(headers[i].1)))
  }

  /** `headersHash` reads `block` as the reference reader does, each line
      becoming one single-valued entry. */
  predicate ReadsAsParsed(headersHash: string -> seq<(string, HeaderValue)>, block: string)
  {
    ParseHeaderBlock(block).Some? && headersHash(block) == SingleEntries(ParseHeaderBlock(block).value)
  }

  /** When Typhoeus reads the written block line by line, the verified
      response carries exactly the headers that were written, in order. */
  lemma ResponseHeadersRoundTrip(headersHash: string -> seq<(string, HeaderValue)>, response: Response)
    requires ConvertResponseFromA(response).Ok?
    requires forall i :: 0 <= i < |response.headers| ==>
               IsWritableHeader(response.headers[i]) && !IsStatusName(response.headers[i].0)
    requires ReadsAsParsed(headersHash, HeaderBlock(response.headers))
    ensures var back := ConvertResponseToA(headersHash, ConvertResponseFromA(response).value);
            back.Ok? && VerifiedResponse(back.value).Ok? &&
            VerifiedResponse(back.value).value.headers == response.headers
  {
    ResponseRoundTrip(headersHash, response);
    SingleEntriesFlatten(response.headers);
  }

  /** Flattening the single entries of non-status headers gives them back. */
  lemma SingleEntriesFlatten(headers: seq<Header>)
    requires forall i :: 0 <= i < |headers| ==> !IsStatusName(headers[i].0)
    ensures FlattenHeaders(SingleEntries(headers)) == headers
  {
    FlattenSingleValues(SingleEntries(headers));
  }

  /** TyphoeusAdapter; its #fetch_resource, which queues the request on a
      Hydra, is the parameter `fetch`. */
  function TyphoeusAdapter(parse: string -> Uri, headersHash: string -> seq<(string, HeaderValue)>,
                           fetch: (Request, ConnectionArg) -> Result<Value>): Adapter<TyphoeusObject, TyphoeusObject>
  {
    Adapter(Some(ConvertRequestToA),
            Some(request => ConvertRequestFromA(parse, request)),
            Some(obj => ConvertResponseToA(headersHash, obj)),
            Some(ConvertResponseFromA),
            Some(fetch))
  }

  /** Adapting a Typhoeus request gives the request it describes, verified. */
  lemma AdaptTyphoeusRequest(parse: string -> Uri, headersHash: string -> seq<(string, HeaderValue)>,
                             fetch: (Request, ConnectionArg) -> Result<Value>, obj: TyphoeusObject)
    requires obj.TyRequest?
    ensures AdaptRequest(TyphoeusAdapter(parse, headersHash, fetch), obj)
            == Ok(Request(Upcase(obj.httpMethod), obj.url, obj.headers, Arr([Str(obj.body.GetOr(""))])))
  {
    RequestToAVerifies(obj);
  }
}
