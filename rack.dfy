/** HTTPAdapter::RackAdapter: a request tuple becomes a Rack environment
    (CGI meta-variables, section 4.1.18 of RFC 3875, with header names
    turned into `HTTP_*` keys) and back, a response tuple becomes the
    arguments of a Rack::Response, and transmission is not implemented. */
module Rack {
  import opened Values
  import opened Text
  import opened Hashes
  import opened Uris
  import opened Bodies
  import opened HttpAdapter

  // ---------------------------------------------------------------------
  // The input stream

  /** A StringIO: its string and its read/write position. */
  datatype StringIO = StringIO(buffer: string, pos: nat)

  /** StringIO#write: the text overwrites the string from the position on,
      growing it as needed, and the position moves past the text. */
  function Write(io: StringIO, s: string): (r: StringIO)
    requires io.pos <= |io.buffer|
    ensures r.pos == io.pos + |s| <= |r.buffer|
    ensures r.buffer[..io.pos] == io.buffer[..io.pos] && r.buffer[io.pos..r.pos] == s
    ensures |r.buffer| == if io.pos + |s| < |io.buffer| then |io.buffer| else io.pos + |s|
  {
    var end := io.pos + |s|;
    StringIO(io.buffer[..io.pos] + s + (if end < |io.buffer| then io.buffer[end..] else ""), end)
  }

  /** The chunks written one after another. */
  function WriteAll(io: StringIO, chunks: seq<string>): (r: StringIO)
    requires io.pos <= |io.buffer|
    ensures r.pos <= |r.buffer|
  {
    if chunks == [] then io else Write(WriteAll(io, chunks[..|chunks| - 1]), chunks[|chunks| - 1])
  }

  /** StringIO#rewind */
  function Rewind(io: StringIO): StringIO { io.(pos := 0) }

  /** Writing into a fresh StringIO leaves exactly the concatenation of
      the chunks, with the position at its end. */
  lemma {:induction false} WriteAllFresh(chunks: seq<string>)
    ensures WriteAll(StringIO("", 0), chunks) == StringIO(Concat(chunks), |Concat(chunks)|)
  {
    if chunks != [] {
      WriteAllFresh(chunks[..|chunks| - 1]);
    }
  }

  /** The lines StringIO#each yields from the position on: each ends with
      its newline, and a last line without one is yielded when not empty. */
  function Lines(s: string): (r: seq<string>)
    ensures forall i :: 0 <= i < |r| ==> r[i] != ""
    ensures forall i :: 0 <= i < |r| - 1 ==> r[i][|r[i]| - 1] == '\n'
  {
    var p := Split(s, '\n');
    seq(|p| - 1, i requires 0 <= i < |p| - 1 => p[i] + "\n") + (if p[|p| - 1] == "" then [] else [p[|p| - 1]])
  }

  /** Reading the lines back gives the string they were cut from. */
  lemma LinesConcat(s: string)
    ensures Concat(Lines(s)) == s
  {
    var p := Split(s, '\n');
    var ts := seq(|p| - 1, i requires 0 <= i < |p| - 1 => p[i] + "\n");
    var tail := if p[|p| - 1] == "" then [] else [p[|p| - 1]];
    ConcatAppend(ts, tail);
    TerminatedConcat(p, '\n');
    JoinSplit(s, '\n');
    if tail == [] {
      assert Concat(tail) == "";
    } else {
      assert tail[..0] == [];
      assert Concat(tail) == p[|p| - 1];
    }
  }

  /** What is left to read: nothing once the position is past the end. */
  function Unread(io: StringIO): string
  {
    if io.pos <= |io.buffer| then io.buffer[io.pos..] else ""
  }

  /** The StringIO as a Ruby object: it answers #each with its lines. */
  function InputValue(io: StringIO): (v: Value)
    ensures RespondsToEach(v) && !v.Str?
  {
    var lines := Lines(Unread(io));
    Obj("StringIO", None, None, Some(seq(|lines|, i requires 0 <= i < |lines| => Str(lines[i]))))
  }

  /** The request body of a tuple written into a fresh StringIO and
      rewound; a chunk that is not a String raises TypeError. */
  function BodyInput(body: Value): (r: Result<StringIO>)
    ensures !RespondsToEach(body) ==> r == Err(Error(Raised("NoMethodError"), Message("each")))
    ensures RespondsToEach(body) ==> (r.Ok? <==> forall i :: 0 <= i < |Each(body)| ==> Each(body)[i].Str?)
    ensures r.Err? && RespondsToEach(body) ==> r.error == Error(TypeError, ChunkNotString)
    ensures r.Ok? ==> r.value == StringIO(Concat(StrictChunks(Each(body)).value), 0)
  {
    if !RespondsToEach(body) then Err(Error(Raised("NoMethodError"), Message("each")))
    else
      var chunks :- StrictChunks(Each(body));
      WriteAllFresh(chunks);
      Ok(Rewind(WriteAll(StringIO("", 0), chunks)))
  }

  /** A rewound input yields the lines of its whole buffer. */
  lemma InputLines(io: StringIO)
    requires io.pos == 0
    ensures ChunkTexts(Each(InputValue(io))) == Lines(io.buffer)
  {
    assert Unread(io) == io.buffer by {
      assert io.buffer[0..] == io.buffer;
    }
    var lines := Lines(io.buffer);
    var items := Each(InputValue(io));
    assert |items| == |lines|;
    forall i | 0 <= i < |items| ensures ChunkTexts(items)[i] == lines[i] {
      assert items[i] == Str(lines[i]);
    }
  }

  /** Reading the rewound input yields the body's chunks concatenated. */
  lemma InputReadsBody(body: Value)
    requires BodyInput(body).Ok?
    ensures var v := InputValue(BodyInput(body).value);
            ChunkTexts(Each(v)) == Lines(Concat(StrictChunks(Each(body)).value))
            && Concat(ChunkTexts(Each(v))) == Concat(StrictChunks(Each(body)).value)
  {
    var text := Concat(StrictChunks(Each(body)).value);
    InputLines(BodyInput(body).value);
    LinesConcat(text);
  }

  // ---------------------------------------------------------------------
  // Environment keys and header names

  /** An environment entry: a Ruby value, or the input stream. */
  datatype EnvValue = Given(v: Value) | Input(io: StringIO)

  type Env = Hash<EnvValue>

  /** The value a Rack::Request hands out for an entry. */
  function AsValue(e: EnvValue): Value
  {
    match e
    case Given(v) => v
    case Input(io) => InputValue(io)
  }

  /** `env[key]`, nil when absent. */
  function EnvGet(env: Env, key: string): Value
  {
    var found := LastValue(env, key);
    if found.Some? then AsValue(found.value) else Nil
  }

  const HttpPrefix: string := "HTTP_"

  /** `'HTTP_' + header.gsub(/\-/, "_").upcase` */
  function EnvKey(name: string): (k: string)
    ensures StartsWith(k, HttpPrefix)
  {
    HttpPrefix + Upcase(Replace(name, '-', '_'))
  }

  /** An environment key is in upper case and has no dash. */
  lemma EnvKeyForm(name: string)
    ensures IsUpcased(EnvKey(name)) && '-' !in EnvKey(name)
  {
    var k := EnvKey(name);
    assert forall i :: 5 <= i < |k| ==> k[i] == UpChar(Replace(name, '-', '_')[i - 5]);
  }

  /** The header name of an `HTTP_*` key: the rest split at underscores,
      each word capitalized, joined with dashes. */
  function HeaderName(key: string): string
    requires StartsWith(key, HttpPrefix)
  {
    Recapitalized(key[|HttpPrefix|..], '_')
  }

  /** The character map EnvKey applies after its prefix. */
  function KeyChar(c: char): char { UpChar(if c == '-' then '_' else c) }

  /** A header name in Capitalized-Dash form without underscores comes back
      unchanged from its environment key. */
  lemma HeaderNameRoundTrip(name: string)
    requires IsCapitalizedDashed(name) && '_' !in name
    ensures HeaderName(EnvKey(name)) == name
  {
    var f := KeyChar;
    assert EnvKey(name)[|HttpPrefix|..] == MapChars(f, name);
    SplitPiecesFree(name, '-');
    forall k | 0 <= k < |Split(name, '-')|
      ensures Capitalize(MapChars(f, Split(name, '-')[k])) == Capitalize(Split(name, '-')[k])
    {
      var piece := Split(name, '-')[k];
      assert MapChars(f, piece) == Upcase(piece);
      CapitalizeUpcase(piece);
    }
    RecapitalizeRoundTrip(f, name, '_');
  }

  /** Names that differ only in case, or in `-` against `_`, share a key:
      the lossiness of the environment. */
  lemma EnvKeyIgnoresCase(name: string)
    ensures EnvKey(Downcase(name)) == EnvKey(name)
  {
  }

  // ---------------------------------------------------------------------
  // Tuple to environment

  /** The entries every environment starts with: distinct keys, none of
      which a header is stored under. */
  function DefaultEnv(httpMethod: string, uri: Uri, input: StringIO): (r: Env)
    ensures UniqueKeys(r)
    ensures forall i :: 0 <= i < |r| ==> !IsHeaderKey(r[i].0)
  {
    var r := [("REQUEST_METHOD", Given(Str(httpMethod))),
     ("SERVER_NAME", Given(Str(uri.host.GetOr("")))),
     ("SERVER_PORT", Given(if uri.port.Some? then Int(uri.port.value) else Str("80"))),
     ("SCRIPT_NAME", Given(Str(""))),
     ("PATH_INFO", Given(Str(uri.path))),
     ("QUERY_STRING", Given(Str(uri.query.GetOr("")))),
     ("rack.input", Input(input)),
     ("rack.multithread", Given(Bool(true))),
     ("rack.multiprocess", Given(Bool(true))),
     ("rack.run_once", Given(Bool(false))),
     ("rack.url_scheme", Given(Str(uri.scheme.GetOr("http"))))];
    assert forall i :: 0 <= i < |r| ==> !IsHeaderKey(r[i].0) by {
      forall i | 0 <= i < |r| ensures !IsHeaderKey(r[i].0) {
        NotHeaderKey(r[i].0);
      }
    }
    r
  }

  /** The extra key a header of that name, in any case, is also stored
      under. */
  function ContentKey(name: string): (k: Option<string>)
    ensures k.Some? ==> k.value == "CONTENT_LENGTH" || k.value == "CONTENT_TYPE"
  {
    var lower := Downcase(name);
    if lower == "content-length" then Some("CONTENT_LENGTH")
    else if lower == "content-type" then Some("CONTENT_TYPE")
    else None
  }

  /** Exactly the names content-length and content-type, in any case,
      have an extra key. */
  lemma ContentKeyOf(name: string)
    ensures ContentKey(name) == Some("CONTENT_LENGTH") <==> Downcase(name) == "content-length"
    ensures ContentKey(name) == Some("CONTENT_TYPE") <==> Downcase(name) == "content-type"
  {
  }

  /** The keys a header may be stored under. */
  predicate IsHeaderKey(k: string) { StartsWith(k, HttpPrefix) || k == "CONTENT_LENGTH" || k == "CONTENT_TYPE" }

  /** A key that begins with neither 'H' nor 'C' is no header's. */
  lemma NotHeaderKey(k: string)
    requires |k| > 0 && k[0] != 'H' && k[0] != 'C'
    ensures !IsHeaderKey(k)
  {
  }

  lemma ContentKeyNotHttp(k: string)
    requires k == "CONTENT_LENGTH" || k == "CONTENT_TYPE"
    ensures !StartsWith(k, HttpPrefix)
  {
    assert k[..5][0] == 'C';
  }

  /** The stores one header makes: CONTENT_LENGTH or CONTENT_TYPE for
      those names in any case, then its `HTTP_*` key. */
  function HeaderEnvPairs(h: Header): (r: seq<(string, EnvValue)>)
    ensures forall i :: 0 <= i < |r| ==> IsHeaderKey(r[i].0)
  {
    var v := Given(Str(h.1));
    var extra := ContentKey(h.0);
    (if extra.Some? then [(extra.value, v)] else []) + [(EnvKey(h.0), v)]
  }

  /** What one header stores under a key. */
  lemma OwnPairs(h: Header, k: string)
    ensures LastValue(HeaderEnvPairs(h), k) ==
              if k == EnvKey(h.0) || ContentKey(h.0) == Some(k) then Some(Given(Str(h.1))) else None
  {
    var v := Given(Str(h.1));
    var ps := HeaderEnvPairs(h);
    if ContentKey(h.0).Some? {
      ContentKeyNotHttp(ContentKey(h.0).value);
      assert ps[..1] == [(ContentKey(h.0).value, v)];
      assert ps[..1][..0] == [];
    } else {
      assert ps[..0] == [];
    }
  }

  /** Storing one header's pairs is the store of the extra key, if any,
      then the store of its `HTTP_*` key. */
  lemma StoreHeaderPairs(env: Env, h: Header)
    ensures var v := Given(Str(h.1));
            var extra := ContentKey(h.0);
            StoreAll(env, HeaderEnvPairs(h)) ==
              Store(if extra.Some? then Store(env, extra.value, v) else env, EnvKey(h.0), v)
  {
    var ps := HeaderEnvPairs(h);
    if ContentKey(h.0).Some? {
      assert |ps| == 2 && ps[..|ps| - 1] == [ps[0]];
      assert [ps[0]][..0] == [];
      assert StoreAll(env, [ps[0]]) == Store(env, ps[0].0, ps[0].1);
    } else {
      assert ps[..0] == [];
    }
  }

  /** The stores all headers make, in order. */
  function HeadersEnvPairs(hs: seq<Header>): (r: seq<(string, EnvValue)>)
    ensures forall i :: 0 <= i < |r| ==> IsHeaderKey(r[i].0)
  {
    if hs == [] then [] else HeadersEnvPairs(hs[..|hs| - 1]) + HeaderEnvPairs(hs[|hs| - 1])
  }

  /** Rack::Request and Rack::Response as the adapter builds and reads them. */
  datatype RackObject =
    | RackRequest(env: Env)
    | RackResponse(status: int, headers: Hash<string>, body: Value)
    | Foreign(v: Value)

  /** #convert_request_from_a; Addressable's parser is the parameter `parse`. */
  function ConvertRequestFromA(parse: string -> Uri, request: Request): (r: Result<RackObject>)
    ensures r.Ok? <==> BodyInput(request.body).Ok?
    ensures r.Err? ==> r.error == BodyInput(request.body).error
    ensures r.Ok? ==> r.value.RackRequest? && UniqueKeys(r.value.env)
  {
    var uri := parse(request.uri);
    var input :- BodyInput(request.body);
    var defaults := DefaultEnv(Upcase(request.httpMethod), uri, input);
    StoreAllLookup(defaults, HeadersEnvPairs(request.headers), "");
    Ok(RackRequest(StoreAll(defaults, HeadersEnvPairs(request.headers))))
  }

  /** The lookup of a key no header is stored under. */
  lemma {:induction false} HeaderPairsMiss(hs: seq<Header>, k: string)
    requires !IsHeaderKey(k)
    ensures LastValue(HeadersEnvPairs(hs), k) == None
  {
  }

  /** The environment of a tuple: the defaults with every header stored. */
  lemma EnvOfRequest(parse: string -> Uri, request: Request)
    requires ConvertRequestFromA(parse, request).Ok?
    ensures ConvertRequestFromA(parse, request).value.env ==
              StoreAll(DefaultEnv(Upcase(request.httpMethod), parse(request.uri), BodyInput(request.body).value),
                       HeadersEnvPairs(request.headers))
  {
  }

  /** A default whose key is no header's keeps its value. */
  lemma DefaultKept(httpMethod: string, uri: Uri, input: StringIO, hs: seq<Header>, i: int)
    requires 0 <= i < |DefaultEnv(httpMethod, uri, input)|
    ensures var d := DefaultEnv(httpMethod, uri, input);
            LastValue(StoreAll(d, HeadersEnvPairs(hs)), d[i].0) == Some(d[i].1)
  {
    var d := DefaultEnv(httpMethod, uri, input);
    HeaderPairsMiss(hs, d[i].0);
    StoreAllLookup(d, HeadersEnvPairs(hs), d[i].0);
    LookupUnique(d, d[i].0, i);
  }

  /** The keys and values of the defaults, one by one. */
  lemma DefaultEnvEntries(httpMethod: string, uri: Uri, input: StringIO)
    ensures var d := DefaultEnv(httpMethod, uri, input);
            && d[0] == ("REQUEST_METHOD", Given(Str(httpMethod)))
            && d[1] == ("SERVER_NAME", Given(Str(uri.host.GetOr(""))))
            && d[2] == ("SERVER_PORT", Given(if uri.port.Some? then Int(uri.port.value) else Str("80")))
            && d[3] == ("SCRIPT_NAME", Given(Str("")))
            && d[4] == ("PATH_INFO", Given(Str(uri.path)))
            && d[5] == ("QUERY_STRING", Given(Str(uri.query.GetOr(""))))
            && d[6] == ("rack.input", Input(input))
            && d[10] == ("rack.url_scheme", Given(Str(uri.scheme.GetOr("http"))))
  {
  }

  /** The defaults, looked up after the headers are stored. */
  lemma DefaultsStored(httpMethod: string, uri: Uri, input: StringIO, hs: seq<Header>)
    ensures var env := StoreAll(DefaultEnv(httpMethod, uri, input), HeadersEnvPairs(hs));
            && EnvGet(env, "REQUEST_METHOD") == Str(httpMethod)
            && EnvGet(env, "SERVER_NAME") == Str(uri.host.GetOr(""))
            && EnvGet(env, "SERVER_PORT") == (if uri.port.Some? then Int(uri.port.value) else Str("80"))
            && EnvGet(env, "SCRIPT_NAME") == Str("")
            && EnvGet(env, "PATH_INFO") == Str(uri.path)
            && EnvGet(env, "QUERY_STRING") == Str(uri.query.GetOr(""))
            && LastValue(env, "rack.input") == Some(Input(input))
            && EnvGet(env, "rack.url_scheme") == Str(uri.scheme.GetOr("http"))
  {
    var d := DefaultEnv(httpMethod, uri, input);
    var env := StoreAll(d, HeadersEnvPairs(hs));
    DefaultEnvEntries(httpMethod, uri, input);
    assert EnvGet(env, "REQUEST_METHOD") == Str(httpMethod) by {
      DefaultKept(httpMethod, uri, input, hs, 0);
    }
    assert EnvGet(env, "SERVER_NAME") == Str(uri.host.GetOr("")) by {
      DefaultKept(httpMethod, uri, input, hs, 1);
    }
    assert EnvGet(env, "SERVER_PORT") == (if uri.port.Some? then Int(uri.port.value) else Str("80")) by {
      DefaultKept(httpMethod, uri, input, hs, 2);
    }
    assert EnvGet(env, "SCRIPT_NAME") == Str("") by {
      DefaultKept(httpMethod, uri, input, hs, 3);
    }
    assert EnvGet(env, "PATH_INFO") == Str(uri.path) by {
      DefaultKept(httpMethod, uri, input, hs, 4);
    }
    assert EnvGet(env, "QUERY_STRING") == Str(uri.query.GetOr("")) by {
      DefaultKept(httpMethod, uri, input, hs, 5);
    }
    assert LastValue(env, "rack.input") == Some(Input(input)) by {
      DefaultKept(httpMethod, uri, input, hs, 6);
    }
    assert EnvGet(env, "rack.url_scheme") == Str(uri.scheme.GetOr("http")) by {
      DefaultKept(httpMethod, uri, input, hs, 10);
    }
  }

  /** Headers never disturb the defaults: the method upcased, the host or
      '', the port or '80', an empty script name, the path, the query or
      '', the rewound input and the scheme or 'http'. */
  lemma EnvDefaults(parse: string -> Uri, request: Request)
    requires ConvertRequestFromA(parse, request).Ok?
    ensures var env := ConvertRequestFromA(parse, request).value.env;
            var uri := parse(request.uri);
            && EnvGet(env, "REQUEST_METHOD") == Str(Upcase(request.httpMethod))
            && EnvGet(env, "SERVER_NAME") == Str(uri.host.GetOr(""))
            && EnvGet(env, "SERVER_PORT") == (if uri.port.Some? then Int(uri.port.value) else Str("80"))
            && EnvGet(env, "SCRIPT_NAME") == Str("")
            && EnvGet(env, "PATH_INFO") == Str(uri.path)
            && EnvGet(env, "QUERY_STRING") == Str(uri.query.GetOr(""))
            && LastValue(env, "rack.input") == Some(Input(BodyInput(request.body).value))
            && EnvGet(env, "rack.url_scheme") == Str(uri.scheme.GetOr("http"))
  {
    EnvOfRequest(parse, request);
    DefaultsStored(Upcase(request.httpMethod), parse(request.uri), BodyInput(request.body).value, request.headers);
  }

  /** The pairs `(EnvKey(name), value)` of the headers, in order. */
  function EnvKeyed(hs: seq<Header>): (r: seq<(string, EnvValue)>)
    ensures |r| == |hs|
  {
    seq(|hs|, i requires 0 <= i < |hs| => (EnvKey(hs[i].0), Given(Str(hs[i].1))))
  }

  lemma {:induction false} HeaderPairsHttp(hs: seq<Header>, k: string)
    requires StartsWith(k, HttpPrefix)
    ensures LastValue(HeadersEnvPairs(hs), k) == LastValue(EnvKeyed(hs), k)
  {
    if hs != [] {
      var init := hs[..|hs| - 1];
      var h := hs[|hs| - 1];
      HeaderPairsHttp(init, k);
      assert LastValue(HeadersEnvPairs(hs), k) ==
               if EnvKey(h.0) == k then Some(Given(Str(h.1))) else LastValue(HeadersEnvPairs(init), k) by {
        LastValueAppend(HeadersEnvPairs(init), HeaderEnvPairs(h), k);
        HttpPair(h, k);
      }
      assert LastValue(EnvKeyed(hs), k) ==
               if EnvKey(h.0) == k then Some(Given(Str(h.1))) else LastValue(EnvKeyed(init), k) by {
        EnvKeyedSnoc(hs);
        LastValueAppend(EnvKeyed(init), [(EnvKey(h.0), Given(Str(h.1)))], k);
      }
    }
  }

  lemma EnvKeyedSnoc(hs: seq<Header>)
    requires hs != []
    ensures EnvKeyed(hs) == EnvKeyed(hs[..|hs| - 1]) + [(EnvKey(hs[|hs| - 1].0), Given(Str(hs[|hs| - 1].1)))]
  {
  }

  lemma LowerNamesSnoc(hs: seq<Header>)
    requires hs != []
    ensures LowerNames(hs) == LowerNames(hs[..|hs| - 1]) + [(Downcase(hs[|hs| - 1].0), hs[|hs| - 1].1)]
  {
  }

  /** What one header stores under an `HTTP_*` key. */
  lemma HttpPair(h: Header, k: string)
    requires StartsWith(k, HttpPrefix)
    ensures LastValue(HeaderEnvPairs(h), k) == if EnvKey(h.0) == k then Some(Given(Str(h.1))) else None
  {
    OwnPairs(h, k);
    if ContentKey(h.0) == Some(k) {
      ContentKeyNotHttp(k);
    }
  }

  /** Every header is stored under its `HTTP_*` key, the last of the
      headers sharing a key winning, and no other `HTTP_*` key appears. */
  lemma EnvHeaderKeys(parse: string -> Uri, request: Request, k: string)
    requires ConvertRequestFromA(parse, request).Ok?
    requires StartsWith(k, HttpPrefix)
    ensures LastValue(ConvertRequestFromA(parse, request).value.env, k) == LastValue(EnvKeyed(request.headers), k)
  {
    var m := Upcase(request.httpMethod);
    var defaults := DefaultEnv(m, parse(request.uri), BodyInput(request.body).value);
    HeaderPairsHttp(request.headers, k);
    StoreAllLookup(defaults, HeadersEnvPairs(request.headers), k);
    HasKeyLookup(defaults, k);
  }

  /** The value of the last header whose lower-cased name is `lower`, as
      an entry. */
  function EnvOfHeader(hs: seq<Header>, lower: string): Option<EnvValue>
  {
    var found := LastValue(LowerNames(hs), lower);
    if found.Some? then Some(Given(Str(found.value))) else None
  }

  /** What one header stores under CONTENT_LENGTH or CONTENT_TYPE. */
  lemma ContentPair(h: Header, k: string, lower: string)
    requires (k, lower) == ("CONTENT_LENGTH", "content-length") || (k, lower) == ("CONTENT_TYPE", "content-type")
    ensures LastValue(HeaderEnvPairs(h), k) == if Downcase(h.0) == lower then Some(Given(Str(h.1))) else None
  {
    OwnPairs(h, k);
    ContentKeyNotHttp(k);
    assert k != EnvKey(h.0);
    ContentKeyOf(h.0);
  }

  lemma {:induction false} HeaderPairsContent(hs: seq<Header>, k: string, lower: string)
    requires (k, lower) == ("CONTENT_LENGTH", "content-length") || (k, lower) == ("CONTENT_TYPE", "content-type")
    ensures LastValue(HeadersEnvPairs(hs), k) == EnvOfHeader(hs, lower)
  {
    if hs != [] {
      var init := hs[..|hs| - 1];
      var h := hs[|hs| - 1];
      var matches := Downcase(h.0) == lower;
      assert LastValue(HeadersEnvPairs(hs), k) ==
               if matches then Some(Given(Str(h.1))) else LastValue(HeadersEnvPairs(init), k) by {
        LastValueAppend(HeadersEnvPairs(init), HeaderEnvPairs(h), k);
        ContentPair(h, k, lower);
      }
      assert LastValue(LowerNames(hs), lower) ==
               if matches then Some(h.1) else LastValue(LowerNames(init), lower) by {
        LowerNamesSnoc(hs);
        LastValueAppend(LowerNames(init), [(Downcase(h.0), h.1)], lower);
      }
      HeaderPairsContent(init, k, lower);
    }
  }

  /** CONTENT_LENGTH and CONTENT_TYPE hold the value of the last header of
      that name in any case, and are absent when there is none. */
  lemma EnvContentKeys(parse: string -> Uri, request: Request)
    requires ConvertRequestFromA(parse, request).Ok?
    ensures LastValue(ConvertRequestFromA(parse, request).value.env, "CONTENT_LENGTH") == EnvOfHeader(request.headers, "content-length")
    ensures LastValue(ConvertRequestFromA(parse, request).value.env, "CONTENT_TYPE") == EnvOfHeader(request.headers, "content-type")
  {
    var m := Upcase(request.httpMethod);
    var defaults := DefaultEnv(m, parse(request.uri), BodyInput(request.body).value);
    HeaderPairsContent(request.headers, "CONTENT_LENGTH", "content-length");
    HeaderPairsContent(request.headers, "CONTENT_TYPE", "content-type");
    StoreAllLookup(defaults, HeadersEnvPairs(request.headers), "CONTENT_LENGTH");
    StoreAllLookup(defaults, HeadersEnvPairs(request.headers), "CONTENT_TYPE");
    HasKeyLookup(defaults, "CONTENT_LENGTH");
    HasKeyLookup(defaults, "CONTENT_TYPE");
  }

  /** The chunks written one by one into a StringIO that is then rewound. */
  method WriteBody(body: Value) returns (r: Result<StringIO>)
    ensures r == BodyInput(body)
  {
    if !RespondsToEach(body) {
      return Err(Error(Raised("NoMethodError"), Message("each")));
    }
    var chunks := Each(body);
    var io := StringIO("", 0);
    ghost var written: seq<string> := [];
    var i := 0;
    while i < |chunks|
      invariant 0 <= i <= |chunks|
      invariant StrictChunks(chunks[..i]) == Ok(written)
      invariant io == WriteAll(StringIO("", 0), written)
    {
      if !chunks[i].Str? {
        BodyInputRejects(body, i);
        return TypeErr(ChunkNotString);
      }
      WriteChunkStep(chunks, i);
      io := Write(io, chunks[i].s);
      written := written + [chunks[i].s];
      i := i + 1;
    }
    BodyInputAccepts(body, written);
    return Ok(Rewind(io));
  }

  /** A chunk that is not a String makes the input a TypeError. */
  lemma BodyInputRejects(body: Value, i: nat)
    requires RespondsToEach(body) && i < |Each(body)| && !Each(body)[i].Str?
    ensures BodyInput(body) == TypeErr(ChunkNotString)
  {
  }

  /** String chunks make the input their concatenation, rewound. */
  lemma BodyInputAccepts(body: Value, written: seq<string>)
    requires RespondsToEach(body) && StrictChunks(Each(body)[..|Each(body)|]) == Ok(written)
    ensures BodyInput(body) == Ok(Rewind(WriteAll(StringIO("", 0), written)))
  {
    assert Each(body)[..|Each(body)|] == Each(body);
    WriteAllFresh(written);
  }

  /** One more String chunk is one more write. */
  lemma WriteChunkStep(chunks: seq<Value>, i: nat)
    requires i < |chunks| && chunks[i].Str? && StrictChunks(chunks[..i]).Ok?
    ensures StrictChunks(chunks[..i + 1]) == Ok(StrictChunks(chunks[..i]).value + [chunks[i].s])
    ensures WriteAll(StringIO("", 0), StrictChunks(chunks[..i]).value + [chunks[i].s])
            == Write(WriteAll(StringIO("", 0), StrictChunks(chunks[..i]).value), chunks[i].s)
  {
    var cs := StrictChunks(chunks[..i]).value;
    assert chunks[..i + 1][..i] == chunks[..i];
    assert (cs + [chunks[i].s])[..|cs|] == cs;
  }

  /** Each header stored in turn: the extra key for Content-Length and
      Content-Type, then its `HTTP_*` key. */
  method StoreHeaders(env0: Env, hs: seq<Header>) returns (env: Env)
    ensures env == StoreAll(env0, HeadersEnvPairs(hs))
  {
    env := env0;
    var j := 0;
    while j < |hs|
      invariant 0 <= j <= |hs|
      invariant env == StoreAll(env0, HeadersEnvPairs(hs[..j]))
    {
      var (name, text) := hs[j];
      var value := Given(Str(text));
      var stored := env;
      var lower := Downcase(name);
      if lower == "content-length" {
        stored := Store(stored, "CONTENT_LENGTH", value);
      } else if lower == "content-type" {
        stored := Store(stored, "CONTENT_TYPE", value);
      }
      stored := Store(stored, EnvKey(name), value);
      assert stored == StoreAll(env, HeaderEnvPairs(hs[j])) by {
        StoreHeaderPairs(env, hs[j]);
      }
      assert StoreAll(env0, HeadersEnvPairs(hs[..j + 1])) == StoreAll(env, HeaderEnvPairs(hs[j])) by {
        assert hs[..j + 1][..j] == hs[..j];
        assert HeadersEnvPairs(hs[..j + 1]) == HeadersEnvPairs(hs[..j]) + HeaderEnvPairs(hs[j]);
        StoreAllAppend(env0, HeadersEnvPairs(hs[..j]), HeaderEnvPairs(hs[j]));
      }
      env := stored;
      j := j + 1;
    }
    assert hs[..j] == hs;
  }

  /** The environment filled key by key, as #convert_request_from_a does. */
  method BuildEnv(parse: string -> Uri, request: Request) returns (r: Result<RackObject>)
    ensures r == ConvertRequestFromA(parse, request)
  {
    var uri := parse(request.uri);
    var input := WriteBody(request.body);
    if input.Err? {
      return Err(input.error);
    }
    var env := StoreHeaders(DefaultEnv(Upcase(request.httpMethod), uri, input.value), request.headers);
    return Ok(RackRequest(env));
  }

  // ---------------------------------------------------------------------
  // Environment to tuple

  /** One `HTTP_*` entry as a header pair. */
  function HeaderEntry(k: string, e: EnvValue): Value
    requires StartsWith(k, HttpPrefix)
  {
    Arr([Str(HeaderName(k)), AsValue(e)])
  }

  /** The headers of an environment: its `HTTP_*` entries in order, other
      entries skipped. */
  function EnvHeaders(env: Env): (r: seq<Value>)
    ensures |r| <= |env|
  {
    if env == [] then []
    else
      var last := env[|env| - 1];
      EnvHeaders(env[..|env| - 1]) + if StartsWith(last.0, HttpPrefix) then [HeaderEntry(last.0, last.1)] else []
  }

  /** #convert_request_to_a: the method upcased, the URL normalized, the
      headers of the environment and its input. Rack::Request#url is the
      parameter `url`. */
  function ConvertRequestToA(url: Env -> string, parse: string -> Uri, obj: RackObject): (r: Result<Value>)
    ensures !obj.RackRequest? <==> r.Err?
    ensures r.Err? ==> r.error == Error(TypeError, WrongNativeClass("Rack::Request"))
    ensures r.Ok? ==> r.value.Arr? && |r.value.elems| == 4
                      && r.value.elems[0] == Str(Upcase(ToS(EnvGet(obj.env, "REQUEST_METHOD"))))
                      && r.value.elems[1] == Str(Render(Normalized(parse(url(obj.env)))))
                      && r.value.elems[2] == Arr(EnvHeaders(obj.env))
                      && r.value.elems[3] == EnvGet(obj.env, "rack.input")
  {
    if !obj.RackRequest? then TypeErr(WrongNativeClass("Rack::Request"))
    else
      var env := obj.env;
      Ok(Arr([Str(Upcase(ToS(EnvGet(env, "REQUEST_METHOD")))),
              Str(Render(Normalized(parse(url(env))))),
              Arr(EnvHeaders(env)),
              EnvGet(env, "rack.input")]))
  }

  /** The loop that collects the headers of an environment. */
  method CollectHeaders(env: Env) returns (headers: seq<Value>)
    ensures headers == EnvHeaders(env)
  {
    headers := [];
    var i := 0;
    while i < |env|
      invariant 0 <= i <= |env|
      invariant headers == EnvHeaders(env[..i])
    {
      assert env[..i + 1][..i] == env[..i];
      var (parameter, value) := env[i];
      if StartsWith(parameter, HttpPrefix) {
        headers := headers + [HeaderEntry(parameter, value)];
      }
      i := i + 1;
    }
    assert env[..i] == env;
  }

  /** The loop of #convert_response_from_a checking that every chunk is a
      String: it stops at the first one that is not. */
  method CheckChunks(chunks: seq<Value>) returns (ok: bool)
    ensures ok <==> StrictChunks(chunks).Ok?
    ensures ok <==> forall i :: 0 <= i < |chunks| ==> chunks[i].Str?
  {
    var i := 0;
    while i < |chunks|
      invariant 0 <= i <= |chunks|
      invariant forall k :: 0 <= k < i ==> chunks[k].Str?
    {
      if !chunks[i].Str? {
        return false;
      }
      i := i + 1;
    }
    return true;
  }

  /** Replacing entries whose keys are not `HTTP_*` by others of the same
      kind leaves the headers as they were. */
  lemma {:induction false} EnvHeadersIgnoreOthers(a: Env, b: Env)
    requires |a| == |b|
    requires forall i :: 0 <= i < |a| ==> a[i] == b[i] || (!StartsWith(a[i].0, HttpPrefix) && !StartsWith(b[i].0, HttpPrefix))
    ensures EnvHeaders(a) == EnvHeaders(b)
  {
    if a != [] {
      EnvHeadersIgnoreOthers(a[..|a| - 1], b[..|b| - 1]);
    }
  }

  /** Storing under a key that is not `HTTP_*` leaves the headers as they were. */
  lemma StoreOtherKey(env: Env, k: string, v: EnvValue)
    requires !StartsWith(k, HttpPrefix)
    ensures EnvHeaders(Store(env, k, v)) == EnvHeaders(env)
  {
    if HasKey(env, k) {
      EnvHeadersIgnoreOthers(Store(env, k, v), env);
    } else {
      assert (env + [(k, v)])[..|env|] == env;
    }
  }

  /** One header stored into an environment that lacks its key adds exactly
      its own entry to the headers. */
  lemma StoreHeader(env: Env, h: Header)
    requires UniqueKeys(env) && !HasKey(env, EnvKey(h.0))
    ensures EnvHeaders(StoreAll(env, HeaderEnvPairs(h))) == EnvHeaders(env) + [HeaderEntry(EnvKey(h.0), Given(Str(h.1)))]
  {
    var v := Given(Str(h.1));
    var k := EnvKey(h.0);
    var extra := ContentKey(h.0);
    var mid := if extra.Some? then Store(env, extra.value, v) else env;
    StoreHeaderPairs(env, h);
    if extra.Some? {
      StoreContentKey(env, extra.value, v, k);
    }
    StoreNewHttpKey(mid, k, v);
  }

  /** Storing CONTENT_LENGTH or CONTENT_TYPE keeps the headers and leaves an
      absent `HTTP_*` key absent. */
  lemma StoreContentKey(env: Env, c: string, v: EnvValue, k: string)
    requires c == "CONTENT_LENGTH" || c == "CONTENT_TYPE"
    requires UniqueKeys(env) && !HasKey(env, k) && StartsWith(k, HttpPrefix)
    ensures EnvHeaders(Store(env, c, v)) == EnvHeaders(env)
    ensures !HasKey(Store(env, c, v), k)
  {
    ContentKeyNotHttp(c);
    StoreOtherKey(env, c, v);
    assert c != k;
    StoreLookup(env, c, v, k);
    HasKeyLookup(env, k);
    HasKeyLookup(Store(env, c, v), k);
  }

  /** Storing an absent `HTTP_*` key appends its entry to the headers. */
  lemma StoreNewHttpKey(env: Env, k: string, v: EnvValue)
    requires !HasKey(env, k) && StartsWith(k, HttpPrefix)
    ensures EnvHeaders(Store(env, k, v)) == EnvHeaders(env) + [HeaderEntry(k, v)]
  {
    assert Store(env, k, v) == env + [(k, v)];
    assert (env + [(k, v)])[..|env|] == env;
  }

  /** An environment without `HTTP_*` keys has no headers. */
  lemma {:induction false} EnvHeadersNone(env: Env)
    requires forall i :: 0 <= i < |env| ==> !StartsWith(env[i].0, HttpPrefix)
    ensures EnvHeaders(env) == []
  {
    if env != [] {
      EnvHeadersNone(env[..|env| - 1]);
    }
  }

  /** The entry a header is expected to come back as. */
  function EntryOf(h: Header): Value
  {
    HeaderEntry(EnvKey(h.0), Given(Str(h.1)))
  }

  /** The entries a header list is expected to come back as. */
  function HeaderEntries(hs: seq<Header>): (r: seq<Value>)
    ensures |r| == |hs|
    ensures forall i :: 0 <= i < |hs| ==> r[i] == EntryOf(hs[i])
  {
    seq(|hs|, i requires 0 <= i < |hs| => EntryOf(hs[i]))
  }

  /** Headers whose environment keys are distinct, stored into an
      environment without `HTTP_*` keys, come back as one entry each, in
      order. */
  lemma {:induction false} StoreHeadersEntries(env: Env, hs: seq<Header>)
    requires UniqueKeys(env)
    requires forall i :: 0 <= i < |env| ==> !StartsWith(env[i].0, HttpPrefix)
    requires forall i, j :: 0 <= i < j < |hs| ==> EnvKey(hs[i].0) != EnvKey(hs[j].0)
    ensures EnvHeaders(StoreAll(env, HeadersEnvPairs(hs))) == HeaderEntries(hs)
  {
    if hs == [] {
      EnvHeadersNone(env);
    } else {
      var init := hs[..|hs| - 1];
      var h := hs[|hs| - 1];
      var pre := HeadersEnvPairs(init);
      var own := HeaderEnvPairs(h);
      var before := StoreAll(env, pre);
      var entry := HeaderEntry(EnvKey(h.0), Given(Str(h.1)));
      assert StoreAll(env, HeadersEnvPairs(hs)) == StoreAll(before, own) by {
        assert HeadersEnvPairs(hs) == pre + own;
        StoreAllAppend(env, pre, own);
      }
      DistinctKeysSplit(hs);
      assert EnvHeaders(before) == HeaderEntries(init) by {
        StoreHeadersEntries(env, init);
      }
      assert UniqueKeys(before) && !HasKey(before, EnvKey(h.0)) by {
        FreshEnvKey(env, init, h);
      }
      StoreHeader(before, h);
      HeaderEntriesSnoc(hs);
    }
  }

  /** Distinct environment keys stay distinct in the prefix and differ
      from the last header's. */
  lemma DistinctKeysSplit(hs: seq<Header>)
    requires hs != []
    requires forall i, j :: 0 <= i < j < |hs| ==> EnvKey(hs[i].0) != EnvKey(hs[j].0)
    ensures var init := hs[..|hs| - 1];
            forall i, j :: 0 <= i < j < |init| ==> EnvKey(init[i].0) != EnvKey(init[j].0)
    ensures var init := hs[..|hs| - 1];
            forall i :: 0 <= i < |init| ==> EnvKey(init[i].0) != EnvKey(hs[|hs| - 1].0)
  {
    var init := hs[..|hs| - 1];
    forall i, j | 0 <= i < j < |init| ensures EnvKey(init[i].0) != EnvKey(init[j].0) {
      assert init[i] == hs[i] && init[j] == hs[j];
    }
    forall i | 0 <= i < |init| ensures EnvKey(init[i].0) != EnvKey(hs[|hs| - 1].0) {
      assert init[i] == hs[i];
    }
  }

  lemma HeaderEntriesSnoc(hs: seq<Header>)
    requires hs != []
    ensures HeaderEntries(hs) == HeaderEntries(hs[..|hs| - 1]) + [EntryOf(hs[|hs| - 1])]
  {
    MappedSnoc(hs, HeaderEntries(hs), HeaderEntries(hs[..|hs| - 1]), EntryOf);
  }

  /** A sequence that maps every header by `f` is the mapped prefix and the
      image of the last header. */
  lemma MappedSnoc(hs: seq<Header>, a: seq<Value>, b: seq<Value>, f: Header -> Value)
    requires hs != [] && |a| == |hs| && |b| == |hs| - 1
    requires forall i :: 0 <= i < |hs| ==> a[i] == f(hs[i])
    requires forall i :: 0 <= i < |hs| - 1 ==> b[i] == f(hs[i])
    ensures a == b + [f(hs[|hs| - 1])]
  {
  }

  /** After storing headers whose keys all differ from a further header's,
      that header's key is still absent. */
  lemma FreshEnvKey(env: Env, init: seq<Header>, h: Header)
    requires UniqueKeys(env)
    requires forall i :: 0 <= i < |env| ==> !StartsWith(env[i].0, HttpPrefix)
    requires forall i :: 0 <= i < |init| ==> EnvKey(init[i].0) != EnvKey(h.0)
    ensures UniqueKeys(StoreAll(env, HeadersEnvPairs(init)))
    ensures !HasKey(StoreAll(env, HeadersEnvPairs(init)), EnvKey(h.0))
  {
    var key := EnvKey(h.0);
    StoreAllLookup(env, HeadersEnvPairs(init), key);
    HeaderPairsHttp(init, key);
    HasKeyLookup(StoreAll(env, HeadersEnvPairs(init)), key);
    HasKeyLookup(env, key);
    HasKeyLookup(EnvKeyed(init), key);
  }

  /** The request tuple survives the round trip through an environment and
      back: the method upcased, every header under its own name and value
      in order when the names are in Capitalized-Dash form without
      underscores and no two share an environment key, and the body read
      back as the concatenation of its chunks. */
  lemma RequestRoundTrip(url: Env -> string, parse: string -> Uri, request: Request)
    requires ConvertRequestFromA(parse, request).Ok?
    requires forall i :: 0 <= i < |request.headers| ==> IsCapitalizedDashed(request.headers[i].0) && '_' !in request.headers[i].0
    requires forall i, j :: 0 <= i < j < |request.headers| ==> EnvKey(request.headers[i].0) != EnvKey(request.headers[j].0)
    ensures var back := ConvertRequestToA(url, parse, ConvertRequestFromA(parse, request).value).value;
            && back.elems[0] == Str(Upcase(request.httpMethod))
            && back.elems[2] == PairsValue(request.headers)
            && back.elems[3] == InputValue(StringIO(Concat(StrictChunks(Each(request.body)).value), 0))
  {
    var obj := ConvertRequestFromA(parse, request).value;
    var back := ConvertRequestToA(url, parse, obj).value;
    var hs := request.headers;
    assert back.elems[0] == Str(Upcase(request.httpMethod)) by {
      EnvDefaults(parse, request);
      UpcaseIdempotent(request.httpMethod);
    }
    assert back.elems[3] == InputValue(StringIO(Concat(StrictChunks(Each(request.body)).value), 0)) by {
      EnvDefaults(parse, request);
    }
    assert back.elems[2] == PairsValue(hs) by {
      EnvHeadersOfRequest(parse, request);
    }
  }

  /** The headers of the environment of a tuple are its header pairs when
      the names are in Capitalized-Dash form without underscores and no two
      share an environment key. */
  lemma EnvHeadersOfRequest(parse: string -> Uri, request: Request)
    requires ConvertRequestFromA(parse, request).Ok?
    requires forall i :: 0 <= i < |request.headers| ==> IsCapitalizedDashed(request.headers[i].0) && '_' !in request.headers[i].0
    requires forall i, j :: 0 <= i < j < |request.headers| ==> EnvKey(request.headers[i].0) != EnvKey(request.headers[j].0)
    ensures Arr(EnvHeaders(ConvertRequestFromA(parse, request).value.env)) == PairsValue(request.headers)
  {
    var hs := request.headers;
    assert EnvHeaders(ConvertRequestFromA(parse, request).value.env) == HeaderEntries(hs) by {
      var m := Upcase(request.httpMethod);
      var input := BodyInput(request.body).value;
      EnvOfRequest(parse, request);
      StoreHeadersEntries(DefaultEnv(m, parse(request.uri), input), hs);
    }
    assert HeaderEntries(hs) == PairsValue(hs).elems by {
      forall i | 0 <= i < |hs|
        ensures HeaderEntries(hs)[i] == PairsValue(hs).elems[i]
      {
        HeaderNameRoundTrip(hs[i].0);
      }
    }
  }

  // ---------------------------------------------------------------------
  // Responses

  /** #convert_response_from_a: every chunk must be a String; the headers
      become a Hash, a later duplicate name overriding an earlier one. */
  function ConvertResponseFromA(response: Response): (r: Result<RackObject>)
    ensures !RespondsToEach(response.body) ==> r == Err(Error(Raised("NoMethodError"), Message("each")))
    ensures RespondsToEach(response.body) ==> (r.Ok? <==> forall i :: 0 <= i < |Each(response.body)| ==> Each(response.body)[i].Str?)
    ensures r.Err? && RespondsToEach(response.body) ==> r.error == Error(TypeError, ChunkNotString)
    ensures r.Ok? ==> r.value.RackResponse? && r.value.status == response.status && r.value.body == response.body
                      && UniqueKeys(r.value.headers)
  {
    if !RespondsToEach(response.body) then Err(Error(Raised("NoMethodError"), Message("each")))
    else
      var _ :- StrictChunks(Each(response.body));
      FromPairsLookup(response.headers, "");
      Ok(RackResponse(response.status, FromPairs(response.headers), response.body))
  }

  /** The response's headers map each name to the value of its last pair,
      and are the pairs themselves when the names are distinct. */
  lemma ResponseHeaders(response: Response, name: string)
    requires ConvertResponseFromA(response).Ok?
    ensures LastValue(ConvertResponseFromA(response).value.headers, name) == LastValue(response.headers, name)
    ensures UniqueKeys(response.headers) ==> ConvertResponseFromA(response).value.headers == response.headers
  {
    FromPairsLookup(response.headers, name);
    if UniqueKeys(response.headers) {
      FromUniquePairs(response.headers);
    }
  }

  /** #convert_response_to_a: Rack::Response#finish, the parameter `finish`,
      on a Rack::Response. */
  function ConvertResponseToA(finish: (int, Hash<string>, Value) -> Value, obj: RackObject): (r: Result<Value>)
    ensures !obj.RackResponse? <==> r.Err?
    ensures r.Err? ==> r.error == Error(TypeError, WrongNativeClass("Rack::Response"))
    ensures r.Ok? ==> r.value == finish(obj.status, obj.headers, obj.body)
  {
    if !obj.RackResponse? then TypeErr(WrongNativeClass("Rack::Response"))
    else Ok(finish(obj.status, obj.headers, obj.body))
  }

  /** #fetch_resource: there is no client to transmit a Rack request. */
  function FetchResource(request: Request, connection: ConnectionArg): (r: Result<Value>)
    ensures r.Err? && r.error.kind == NotImplementedError
  {
    Err(Error(NotImplementedError, NoClientImplementation))
  }

  function RackAdapter(url: Env -> string, parse: string -> Uri, finish: (int, Hash<string>, Value) -> Value): Adapter<RackObject, RackObject>
  {
    Adapter(Some(obj => ConvertRequestToA(url, parse, obj)),
            Some(request => ConvertRequestFromA(parse, request)),
            Some(obj => ConvertResponseToA(finish, obj)),
            Some(ConvertResponseFromA),
            Some(FetchResource))
  }

  /** Transmitting through Rack verifies the request and the connection
      and only then raises NotImplementedError. */
  lemma TransmitNotImplemented(url: Env -> string, parse: string -> Uri, finish: (int, Hash<string>, Value) -> Value,
                               request: Value, connection: ConnectionArg)
    ensures var r := Transmit(RackAdapter(url, parse, finish), request, connection);
            && (VerifiedRequest(request).Err? ==> r == Err(VerifiedRequest(request).error))
            && (VerifiedRequest(request).Ok? && !AcceptableConnection(connection) ==> r == TypeErr(NotAConnection))
            && (VerifiedRequest(request).Ok? && AcceptableConnection(connection) ==>
                  r == Err(Error(NotImplementedError, NoClientImplementation)))
  {
  }
}
