# httpadapter in Dafny

HTTPAdapter is a Ruby library that converts HTTP request and response objects
between client and server libraries. Each library's objects are converted to
and from one neutral form:

- a request is the array `[method, uri, headers, body]`;
- a response is the array `[status, headers, body]`;
- `headers` is anything whose `#each` yields `[name, value]` String pairs;
- `body` is anything whose `#each` yields String chunks.

This project models the following:

- **The `HTTPAdapter` mixin.**
  - `verified_request` and `verified_response` check and canonicalise the neutral tuples.
  - `adapt_*` and `specialize_*` run a converter and verify what goes in or comes out.
  - `transmit` checks the request and the connection, delegates to `#fetch_resource` and verifies the answer.
- **`HTTPAdapter::Connection`.**
  - Its constructor checks the host and port.
  - `open`, `close` and `join` forward to the wrapped handle.
- **The adapters' converters.**
  - The Net::HTTP, Rack and Typhoeus adapters each have four converters between the neutral tuples and that library's objects.
  - Rack's `fetch_resource` always raises.
- **`MockAdapter.create`**: its `fetch_resource` calls a block.

Ruby values are modelled as the datatype `Values.Value`. It has Strings,
Symbols, Integers, booleans, nil, Arrays and opaque objects that may answer
`to_str`, `to_i` or `each`. The semantics are those of Ruby 1.9: a String
does not respond to `each`. A raised exception is the `Err` case of a
`Result`. The exception's class and the site that raised it are kept, so the
order of the checks is observable.

A Ruby Hash is an insertion-ordered sequence of pairs (module `Hashes`):

- `Store` overwrites an existing key in place or appends a new one;
- lookup goes through `LastValue`.

An adapter is the record `HttpAdapter.Adapter`:

- one optional function per converter method, where `None` means the object does not respond to it;
- an optional `fetchResource`.

Collaborators outside the repository become parameters of the model:

- Addressable's URI parser (`parse`);
- `Net::HTTPResponse::CODE_TO_OBJ` (`codeToObj`);
- `Rack::Request#url`;
- `Rack::Response#finish`;
- Typhoeus's `headers_hash`;
- the network fetch.

Each loop of the source is also written as a `method`, proved equal to the
function that specifies it.

## Model

| member | source | states |
|---|---|---|
| HttpAdapter.VerifiedHeader | lib/httpadapter.rb:186-203 | a header entry is accepted iff both halves respond to to_str, giving the converted pair; a bad name raises before a bad value |
| HttpAdapter.VerifiedItems | lib/httpadapter.rb:186-203 | the headers verify iff every entry does; the result converts every entry in order; an error is the first bad entry's |
| HttpAdapter.VerifiedHeaders | lib/httpadapter.rb:186-188 | headers without #each raise TypeError; otherwise every yielded entry is verified |
| HttpAdapter.MethodName | lib/httpadapter.rb:173-180 | a method is accepted iff it responds to to_str or is a Symbol; the name is its to_str answer, or else the Symbol's name |
| HttpAdapter.StatusCode | lib/httpadapter.rb:236-239 | a status that responds to to_i is read with it (a String with String#to_i, nil as 0, an object as its to_i answer) and must then be an Integer; an Integer is kept; a Symbol, a boolean, an Array or an object without to_i is refused |
| HttpAdapter.VerifiedBody | lib/httpadapter.rb:204-213 | a body is accepted iff it is not a String and responds to #each, and is then returned unchanged |
| HttpAdapter.VerifiedRequest | lib/httpadapter.rb:166-220 | the order of the checks and the error each one raises; on success the method is upcased and the tuple is canonical |
| HttpAdapter.VerifiedResponse | lib/httpadapter.rb:229-273 | the order of the checks and the error each one raises; on success the status is an Integer and the tuple is canonical |
| HttpAdapter.FirstBadHeader | lib/httpadapter.rb:186-203 | the first entry that fails decides the error raised for the whole header list |
| HttpAdapter.PairsVerify | lib/httpadapter.rb:186-203 | an array of String pairs verifies to exactly those pairs |
| HttpAdapter.StringRequestVerifies | lib/httpadapter.rb:166-220 | a tuple of String method and URI, String header pairs and a one-chunk body verifies, with only the method upcased |
| HttpAdapter.RequestAcceptance | lib/httpadapter.rb:166-220 | verified_request succeeds iff the tuple is well formed, stated independently |
| HttpAdapter.CanonicalRequestVerifies | lib/httpadapter.rb:166-220 | a canonical request tuple verifies to itself |
| HttpAdapter.VerifiedRequestIdempotent | lib/httpadapter.rb:166-220 | verifying a verified request changes nothing |
| HttpAdapter.CanonicalResponseVerifies | lib/httpadapter.rb:229-273 | a canonical response tuple verifies to itself |
| HttpAdapter.VerifiedResponseIdempotent | lib/httpadapter.rb:229-273 | verifying a verified response changes nothing |
| HttpAdapter.VerifiedHeadersOfPairs | lib/httpadapter.rb:189-202 | the i-th verified header is the i-th two-element entry, converted with to_str |
| HttpAdapter.StringStatus | lib/httpadapter.rb:236-239 | a String status is read with to_i and the rest of the tuple is kept |
| HttpAdapter.BogusStatusIsZero | lib/httpadapter.rb:236-239 | a non-numeric String status reads as 0 |
| HttpAdapter.StatusStringRoundTrip | lib/httpadapter.rb:236-239 | an Integer written as a String status reads back as the same Integer |
| HttpAdapter.RejectedRequestShapes | lib/httpadapter.rb:166-220 | the TypeError raised for a non-Array, a wrong arity, a bad method, a bad URI and headers without #each |
| HttpAdapter.BadHeaderLists | lib/httpadapter.rb:188-198 | a bare entry or a non-String name raises the name error, and a non-String value raises the value error |
| HttpAdapter.RejectedRequestParts | lib/httpadapter.rb:186-213 | the TypeError raised for a bad header entry, name or value, a body without #each and a String body |
| HttpAdapter.RejectedResponseShapes | lib/httpadapter.rb:229-273 | the TypeError raised for a non-Array, a wrong arity, a status without to_i and headers without #each |
| HttpAdapter.RejectedResponseParts | lib/httpadapter.rb:240-267 | the TypeError raised for a bad header entry, name or value, a body without #each and a String body |
| HttpAdapter.VerifyHeaders | lib/httpadapter.rb:186-203 | the header loop computes VerifiedHeaders |
| HttpAdapter.VerifyRequest | lib/httpadapter.rb:166-220 | the imperative check computes VerifiedRequest |
| HttpAdapter.VerifyResponse | lib/httpadapter.rb:229-273 | the imperative check computes VerifiedResponse |
| HttpAdapter.LowerNames | lib/httpadapter/adapters/net_http.rb:113-120 | each header keeps its value and position, with its name downcased |
| HttpAdapter.HeaderIgnoringCase | lib/httpadapter/adapters/net_http.rb:143-150 | the value of the last header whose name equals the given one ignoring case, or none; NetHttp.ScanHeaders and NetHttp.FieldPairsLookup state this of the source's loops and fields |
| HttpAdapter.AcceptableConnection | lib/httpadapter.rb:147-150 | a connection passes iff it is an HTTPAdapter::Connection or is nil or false; HttpAdapter.Transmit and HttpAdapter.NonConnectionRefused state where it is checked |
| HttpAdapter.AdaptRequest | lib/httpadapter.rb:57-65 | a missing converter raises TypeError; the converter's error propagates; its result is verified, so any success is canonical |
| HttpAdapter.SpecializeRequest | lib/httpadapter.rb:80-88 | the tuple is verified before any converter runs; a missing converter raises TypeError |
| HttpAdapter.AdaptResponse | lib/httpadapter.rb:99-107 | a missing converter raises TypeError; the converter's error propagates; its result is verified, so any success is canonical |
| HttpAdapter.SpecializeResponse | lib/httpadapter.rb:123-131 | the tuple is verified before any converter runs; a missing converter raises TypeError |
| HttpAdapter.Transmit | lib/httpadapter.rb:145-157 | the request is verified, then the connection is checked, then fetch_resource runs, and its answer is verified as a response |
| HttpAdapter.BogusAdapterRaises | lib/httpadapter.rb:57-157 | an object with no converters raises TypeError from every facade method |
| HttpAdapter.InvalidTupleRejected | lib/httpadapter.rb:80-157 | every adapter raises the verification error of a malformed tuple, whatever its converters are |
| HttpAdapter.NonConnectionRefused | lib/httpadapter.rb:147-150 | a truthy connection that is not an HTTPAdapter::Connection raises TypeError |
| Bodies.ChunkString | lib/httpadapter/adapters/net_http.rb:154-162 | a body chunk is accepted iff it responds to to_str |
| Bodies.MergeChunks | lib/httpadapter/adapters/net_http.rb:154-162 | merging succeeds iff every chunk responds to to_str |
| Bodies.MergedBody | lib/httpadapter/adapters/typhoeus.rb:46-52 | a body without #each raises NoMethodError; otherwise its chunks are merged |
| Bodies.MergeChunksConcat | lib/httpadapter/adapters/net_http.rb:154-162 | the merged body is the concatenation of the chunks' texts, in order |
| Bodies.ConcatEmpty | lib/httpadapter/adapters/net_http.rb:158-161 | the merged body is empty iff every chunk is empty |
| Bodies.MergeSingle | lib/httpadapter/adapters/net_http.rb:192-199 | a one-chunk body merges to that chunk |
| Bodies.MergeBody | lib/httpadapter/adapters/net_http.rb:154-162 | the chunk loop computes MergedBody |
| Bodies.ChunkErrorStops | lib/httpadapter/adapters/net_http.rb:154-162 | any chunk without to_str makes the merge raise TypeError |
| Bodies.StrictChunks | lib/httpadapter/adapters/rack.rb:57-64 | the chunks are accepted iff every one is a String, and are then kept in order |
| Hashes.StoreLookup | lib/httpadapter/adapters/rack.rb:83-91 | after storing, the key maps to the new value and every other key keeps its value |
| Hashes.StoreAllLookup | lib/httpadapter/adapters/rack.rb:83-91 | after storing many pairs, a key maps to its last stored value, or else to its old value |
| Hashes.FromPairsLookup | lib/httpadapter/adapters/typhoeus.rb:45 | a Hash built from pairs maps each key to its last pair |
| Hashes.FromUniquePairs | lib/httpadapter/adapters/typhoeus.rb:45 | pairs with distinct keys become the same Hash |
| ConnectionWrapper.ValidatedEndpoint | lib/httpadapter/connection.rb:19-33 | a host without to_str or a port without to_i (or a Symbol port) raises TypeError; a port outside 1..65535 raises ArgumentError; otherwise the host and port are stored |
| ConnectionWrapper.Connection.constructor | lib/httpadapter/connection.rb:19-33 | stores the host, port, handle and options |
| ConnectionWrapper.Connection.Forwarded | lib/httpadapter/connection.rb:35-69 | an unconfigured operation sends nothing; a configured one sends to the handle the entry's method (default: its own name), its arguments (default: none) and its block |
| ConnectionWrapper.Connection.Open | lib/httpadapter/connection.rb:35-45 | open forwards as configured |
| ConnectionWrapper.Connection.Close | lib/httpadapter/connection.rb:47-57 | close forwards as configured |
| ConnectionWrapper.Connection.Join | lib/httpadapter/connection.rb:59-69 | join forwards as configured |
| ConnectionWrapper.NewConnection | lib/httpadapter/connection.rb:19-33 | construction fails exactly when validation does, with its error; otherwise the readers give the validated host and port, the handle and the options |
| ConnectionWrapper.StringPortAccepted | lib/httpadapter/connection.rb:24-30 | the String port "80" is read as 80 |
| ConnectionWrapper.StringPortOutOfRange | lib/httpadapter/connection.rb:27-29 | the String port "65536" raises ArgumentError |
| ConnectionWrapper.BadEndpointsRejected | lib/httpadapter/connection.rb:20-30 | ports 0 and 65536 raise ArgumentError; a Symbol port and an Integer host raise TypeError |
| NetHttp.MethodMappingIsUpcased | lib/httpadapter/adapters/net_http.rb:25-42 | every mapped method name is already upcased |
| NetHttp.CanonicalEach | lib/httpadapter/adapters/net_http.rb:113-120 | each stored field is yielded once, with its name capitalised at dashes and its values joined with ", " |
| NetHttp.FieldPairs | lib/httpadapter/adapters/net_http.rb:189-191 | each header becomes a field with a downcased name and a one-element value list |
| NetHttp.ResolvedUri | lib/httpadapter/adapters/net_http.rb:121-128 | a relative URI takes its host from the Host header and its scheme from X-Forwarded-Proto (default http); the host and scheme are downcased |
| NetHttp.ConvertRequestToA | lib/httpadapter/adapters/net_http.rb:105-131 | a non-request raises TypeError; otherwise the tuple holds the upcased method, the resolved URI, the canonical headers and the body as one chunk |
| NetHttp.AdaptedRequestVerifies | lib/httpadapter/adapters/net_http.rb:105-131 | the tuple built from a Net::HTTP request always verifies, with its headers and its one-chunk body |
| NetHttp.ConvertRequestFromA | lib/httpadapter/adapters/net_http.rb:133-164 | an unknown method raises ArgumentError; the path is the URI's request_uri; a non-empty merged body is set and an empty one is not; on a known method and a valid URI, success depends only on the body |
| NetHttp.BogusMethodRefused | lib/httpadapter/adapters/net_http.rb:138-141 | the method BOGUS raises ArgumentError |
| NetHttp.FieldPairsLookup | lib/httpadapter/adapters/net_http.rb:143-150 | field lookup after storing the headers gives the last header of that name, in any case |
| NetHttp.RequestFieldsLookup | lib/httpadapter/adapters/net_http.rb:143-153 | a field comes from the last header of that name in any case; otherwise host comes from the URI; otherwise the Net::HTTP default applies |
| NetHttp.RequestFields | lib/httpadapter/adapters/net_http.rb:143-153 | the request's field table; NetHttp.RequestFieldsLookup, NetHttp.HostField and NetHttp.FieldsHost state what it holds, and NetHttp.ApplyHeaders computes it |
| NetHttp.HostField | lib/httpadapter/adapters/net_http.rb:151-153 | the Host field is the Host header if one was given, otherwise the URI's host |
| NetHttp.FieldsHost | lib/httpadapter/adapters/net_http.rb:143-162 | the forced Content-Length leaves the Host field as the header or the URI gave it |
| NetHttp.ContentLengthField | lib/httpadapter/adapters/net_http.rb:154-162 | an empty POST or PUT body forces Content-Length 0; otherwise the header's value, if any, is kept |
| NetHttp.FieldsContentLength | lib/httpadapter/adapters/net_http.rb:143-162 | with the forced 0 Content-Length is 0; otherwise it is the last Content-Length header in any case, or absent |
| NetHttp.ConvertResponseToA | lib/httpadapter/adapters/net_http.rb:166-178 | a non-response raises TypeError; otherwise the tuple holds the code read with to_i, the canonical headers and the body as one chunk |
| NetHttp.ConvertResponseFromA | lib/httpadapter/adapters/net_http.rb:180-202 | an unknown status raises ArgumentError; the message comes from STATUS_MESSAGES and the code reads back as the status; the fields are the headers added in turn with add_field; the body is the merged chunks |
| NetHttp.AddDistinctFields | lib/httpadapter/adapters/net_http.rb:189-191 | headers with names distinct ignoring case are stored one field each, in order |
| NetHttp.CanonicalNameRoundTrip | lib/httpadapter/adapters/net_http.rb:113-120 | a Capitalized-Dash name survives being downcased and then recapitalised |
| NetHttp.ResponseRoundTrip | lib/httpadapter/adapters/net_http.rb:166-202 | converting a response tuple to Net::HTTP and back gives the same status, with the body merged into one chunk, and the same headers in order when their names are in Capitalized-Dash form and distinct ignoring case |
| NetHttp.FieldsReadBack | lib/httpadapter/adapters/net_http.rb:113-120 | headers with distinct Capitalized-Dash names, added as fields and read back with canonical_each, are the same headers in order |
| NetHttp.AddField | lib/httpadapter/adapters/net_http.rb:189-191 | one add_field; NetHttp.AddFieldLookup, NetHttp.AddFreshField and NetHttp.AddRepeatedField state its effect |
| NetHttp.AddFields | lib/httpadapter/adapters/net_http.rb:189-191 | add_field for every header in turn; NetHttp.AddFieldsLookup and NetHttp.AddDistinctFields state the table it builds |
| NetHttp.AddFieldLookup | lib/httpadapter/adapters/net_http.rb:189-191 | one add_field appends the value to the list of its downcased name and leaves every other name's list alone |
| NetHttp.AddFieldsLookup | lib/httpadapter/adapters/net_http.rb:189-191 | after add_field for every header, each downcased name holds exactly the values given under it, in order, and nothing else is stored |
| NetHttp.AddFreshField | lib/httpadapter/adapters/net_http.rb:189-191 | add_field under a name not yet present appends a one-value field |
| NetHttp.AddRepeatedField | lib/httpadapter/adapters/net_http.rb:189-191 | add_field under a name already present appends the value to its list |
| NetHttp.RepeatedNameJoined | lib/httpadapter/adapters/net_http.rb:166-202 | two headers of the same name in any case come back from canonical_each as one header whose values are joined by ", " |
| NetHttp.CopyCanonical | lib/httpadapter/adapters/net_http.rb:173-175 | the copy loop yields exactly the pairs of canonical_each, in order |
| NetHttp.NetHttpAdapter | lib/httpadapter/adapters/net_http.rb:22-23 | the adapter's four converters and fetch_resource; NetHttp.AdaptNetHttpResponse states adapt_response through it |
| NetHttp.ResponseToAVerifies | lib/httpadapter/adapters/net_http.rb:166-178 | the tuple of a Net::HTTP response verifies to its code read with to_i, its canonical pairs and its body as one chunk |
| NetHttp.AdaptNetHttpResponse | lib/httpadapter/adapters/net_http.rb:166-178 | adapt_response on a Net::HTTP response gives its code, canonical headers and one-chunk body |
| NetHttp.ScanHeaders | lib/httpadapter/adapters/net_http.rb:143-150 | the header loop finds the last Host and X-Forwarded-Proto headers, in any case |
| NetHttp.ApplyHeaders | lib/httpadapter/adapters/net_http.rb:143-153 | the header loop computes the request's fields |
| NetHttp.AddResponseFields | lib/httpadapter/adapters/net_http.rb:189-191 | the add_field loop computes the response's fields |
| Rack.WriteAllFresh | lib/httpadapter/adapters/rack.rb:57-64 | writing the chunks into a new StringIO leaves exactly their concatenation |
| Rack.LinesConcat | lib/httpadapter/adapters/rack.rb:48 | the lines the input yields add up to its text |
| Rack.BodyInput | lib/httpadapter/adapters/rack.rb:57-64 | a body without #each raises NoMethodError; a chunk that is not a String raises TypeError; otherwise rack.input holds the concatenated chunks, rewound |
| Rack.InputReadsBody | lib/httpadapter/adapters/rack.rb:57-64 | reading rack.input back yields the body's text |
| Rack.InputLines | lib/httpadapter/adapters/rack.rb:48 | a rewound input yields the lines of its whole text |
| Rack.EnvKey | lib/httpadapter/adapters/rack.rb:90 | a header's environment key starts with HTTP_ |
| Rack.EnvKeyForm | lib/httpadapter/adapters/rack.rb:90 | an environment key is upcased and has no dashes |
| Rack.HeaderNameRoundTrip | lib/httpadapter/adapters/rack.rb:40-47 | a Capitalized-Dash name without underscores comes back from its environment key unchanged |
| Rack.EnvKeyIgnoresCase | lib/httpadapter/adapters/rack.rb:90 | the environment key does not depend on the case of the header name |
| Rack.HeaderName | lib/httpadapter/adapters/rack.rb:43-45 | the header name of an HTTP_ key; Rack.HeaderNameRoundTrip states that it inverts the environment key for Capitalized-Dash names without underscores |
| Rack.ContentKey | lib/httpadapter/adapters/rack.rb:84-89 | the extra key is only ever CONTENT_LENGTH or CONTENT_TYPE; Rack.ContentKeyOf states exactly which names get which |
| Rack.ContentKeyOf | lib/httpadapter/adapters/rack.rb:84-89 | Content-Length and Content-Type, in any case, are also stored under their CGI keys, and no other name is |
| Rack.ConvertRequestFromA | lib/httpadapter/adapters/rack.rb:51-94 | success iff the body can be written to rack.input, with its error otherwise; the environment has distinct keys |
| Rack.DefaultEnv | lib/httpadapter/adapters/rack.rb:66-81 | the entries every environment starts with have distinct keys and none is a header's key; Rack.EnvDefaults states their values |
| Rack.EnvDefaults | lib/httpadapter/adapters/rack.rb:66-81 | REQUEST_METHOD, SERVER_NAME, SERVER_PORT, SCRIPT_NAME, PATH_INFO, QUERY_STRING, rack.input and rack.url_scheme hold the values derived from the tuple |
| Rack.DefaultsStored | lib/httpadapter/adapters/rack.rb:66-91 | storing the headers never changes the eight defaults |
| Rack.EnvHeaderKeys | lib/httpadapter/adapters/rack.rb:83-91 | each HTTP_ key holds the value of the last header mapped to it |
| Rack.EnvContentKeys | lib/httpadapter/adapters/rack.rb:84-89 | CONTENT_LENGTH and CONTENT_TYPE hold the last such header's value |
| Rack.ContentPair | lib/httpadapter/adapters/rack.rb:84-89 | one header stores under CONTENT_LENGTH or CONTENT_TYPE exactly when its name is that header name in any case |
| Rack.HttpPair | lib/httpadapter/adapters/rack.rb:90 | one header stores under an HTTP_ key exactly when that key is its own |
| Rack.WriteBody | lib/httpadapter/adapters/rack.rb:57-64 | the write loop computes BodyInput |
| Rack.StoreHeaders | lib/httpadapter/adapters/rack.rb:83-91 | the header loop stores every header's pairs in turn |
| Rack.BuildEnv | lib/httpadapter/adapters/rack.rb:51-94 | the imperative conversion computes ConvertRequestFromA |
| Rack.ConvertRequestToA | lib/httpadapter/adapters/rack.rb:33-49 | a non-request raises TypeError; otherwise the tuple holds the upcased REQUEST_METHOD, the normalised URI that Rack::Request#url gives, the HTTP_ entries as headers and rack.input as the body |
| Rack.EnvHeaders | lib/httpadapter/adapters/rack.rb:40-47 | at most one header per environment entry; Rack.CollectHeaders computes it and Rack.StoreHeadersEntries and Rack.EnvHeadersOfRequest state what it reads back |
| Rack.CollectHeaders | lib/httpadapter/adapters/rack.rb:40-47 | the environment loop computes the header list |
| Rack.StoreHeader | lib/httpadapter/adapters/rack.rb:83-91 | storing a header under a new key adds one header entry at the end |
| Rack.StoreHeadersEntries | lib/httpadapter/adapters/rack.rb:83-91 | after the headers are stored, the HTTP_ entries are the headers, in order |
| Rack.EnvHeadersOfRequest | lib/httpadapter/adapters/rack.rb:40-91 | the HTTP_ entries of a converted tuple read back as its headers, when the names are Capitalized-Dash without underscores and the keys distinct |
| Rack.RequestRoundTrip | lib/httpadapter/adapters/rack.rb:33-94 | converting a tuple to an environment and back gives the upcased method, the same headers and the body's text as input |
| Rack.CheckChunks | lib/httpadapter/adapters/rack.rb:106-111 | the check loop passes iff every chunk is a String, the condition StrictChunks states |
| Rack.ConvertResponseFromA | lib/httpadapter/adapters/rack.rb:103-114 | a body without #each raises NoMethodError and a non-String chunk raises TypeError; otherwise the response keeps the status and the body |
| Rack.ResponseHeaders | lib/httpadapter/adapters/rack.rb:112 | the response's header Hash maps each name to its last value, and keeps distinct headers unchanged |
| Rack.ConvertResponseToA | lib/httpadapter/adapters/rack.rb:96-101 | a non-response raises TypeError; otherwise the tuple is what Rack::Response#finish returns |
| Rack.FetchResource | lib/httpadapter/adapters/rack.rb:116-119 | always raises NotImplementedError |
| Rack.RackAdapter | lib/httpadapter/adapters/rack.rb:23-24 | the adapter's four converters and fetch_resource; Rack.TransmitNotImplemented states transmit through it |
| Rack.TransmitNotImplemented | lib/httpadapter/adapters/rack.rb:116-119 | transmit through a Rack adapter raises NotImplementedError once the request and connection pass |
| Typhoeus.ConvertRequestToA | lib/httpadapter/adapters/typhoeus.rb:26-39 | the conversion fails iff the object is not a Typhoeus::Request, and then it raises TypeError |
| Typhoeus.RequestToAVerifies | lib/httpadapter/adapters/typhoeus.rb:26-39 | the tuple verifies to the upcased method, the URL, the headers and the body as one chunk |
| Typhoeus.ConvertRequestFromA | lib/httpadapter/adapters/typhoeus.rb:41-60 | the method is downcased, the URL is the rendered URI, the headers form a Hash, and an empty merged body becomes nil |
| Typhoeus.RequestBody | lib/httpadapter/adapters/typhoeus.rb:46-52 | the body loop gives nil for an empty body and the merged text otherwise |
| Typhoeus.CopyHeaders | lib/httpadapter/adapters/typhoeus.rb:33-36 | the copy loop yields the request's header pairs unchanged and in order |
| Typhoeus.RequestRoundTrip | lib/httpadapter/adapters/typhoeus.rb:26-60 | converting a canonical tuple to Typhoeus and back keeps the method, the rendered URI and the headers, with the body merged into one chunk |
| Typhoeus.EmptyBodyIsNil | lib/httpadapter/adapters/typhoeus.rb:46-52 | a body of empty chunks is sent as nil |
| Typhoeus.HeaderBlock | lib/httpadapter/adapters/typhoeus.rb:94 | the header block written by the inject; Typhoeus.HeaderBlockRoundTrip states that it parses back to the headers |
| Typhoeus.WriteHeaderBlock | lib/httpadapter/adapters/typhoeus.rb:94 | the loop writes "name: value\r\n" for each header, in order |
| Typhoeus.HeaderBlockRoundTrip | lib/httpadapter/adapters/typhoeus.rb:94 | parsing the written header block gives back exactly the headers |
| Typhoeus.IsStatusName | lib/httpadapter/adapters/typhoeus.rb:71 | a name some line of which is a status line, as the anchored pattern matches it; Typhoeus.EntryPairs states that such an entry yields nothing |
| Typhoeus.FlattenHeaders | lib/httpadapter/adapters/typhoeus.rb:69-80 | the headers of a headers_hash; Typhoeus.FlattenHeadersMembers and Typhoeus.FlattenSingleValues state them and Typhoeus.CollectHeaders computes them |
| Typhoeus.EntryPairs | lib/httpadapter/adapters/typhoeus.rb:71-79 | a status-line entry gives no headers; every header it gives has the entry's name |
| Typhoeus.FlattenHeadersMembers | lib/httpadapter/adapters/typhoeus.rb:71-79 | a header is produced iff some non-status entry has that name and the value alone or among its values |
| Typhoeus.FlattenSingleValues | lib/httpadapter/adapters/typhoeus.rb:72-79 | single values pass through unchanged, one header per entry |
| Typhoeus.AppendRepeated | lib/httpadapter/adapters/typhoeus.rb:73-76 | the inner loop appends one header per repeated value, in order |
| Typhoeus.CollectHeaders | lib/httpadapter/adapters/typhoeus.rb:70-80 | the nested loops compute the flattened headers |
| Typhoeus.ConvertResponseToA | lib/httpadapter/adapters/typhoeus.rb:62-83 | a non-response raises TypeError; otherwise the tuple verifies to the code, the flattened headers and the body as one chunk |
| Typhoeus.ConvertResponseFromA | lib/httpadapter/adapters/typhoeus.rb:85-98 | fails exactly when the body cannot be merged; otherwise the response holds the status, the written header block and the merged body |
| Typhoeus.ResponseRoundTrip | lib/httpadapter/adapters/typhoeus.rb:62-98 | converting to Typhoeus and back keeps the status and gives the body as one chunk; the header block parses back to the headers |
| Typhoeus.ResponseHeadersRoundTrip | lib/httpadapter/adapters/typhoeus.rb:62-98 | when headers_hash reads each line of the written block as one single-valued entry, the verified response carries exactly the headers written, in order, for writable headers that are not status lines |
| Typhoeus.SingleEntriesFlatten | lib/httpadapter/adapters/typhoeus.rb:69-80 | a headers_hash of single values under non-status names flattens back to the same headers |
| Typhoeus.TyphoeusAdapter | lib/httpadapter/adapters/typhoeus.rb:23-24 | the adapter's four converters and fetch_resource; Typhoeus.AdaptTyphoeusRequest states adapt_request through it |
| Typhoeus.AdaptTyphoeusRequest | lib/httpadapter/adapters/typhoeus.rb:26-39 | adapt_request on a Typhoeus request gives the verified tuple |
| Mock.FetchResource | lib/httpadapter/adapters/mock.rb:33-40 | the block's answer is returned when it responds to #each, otherwise [200, [], [""]]; the block's error propagates |
| Mock.MockAdapter | lib/httpadapter/adapters/mock.rb:29-43 | the created adapter only responds to fetch_resource |
| Mock.DefaultWhenNotEnumerable | lib/httpadapter/adapters/mock.rb:35-39 | a block answering nil transmits as status 200 with no headers and an empty body |
| Mock.BlockResponsePassesThrough | lib/httpadapter/adapters/mock.rb:35-39 | a block answering a 400 tuple transmits as that 400 |
| Mock.MockTransmit | lib/httpadapter/adapters/mock.rb:33-40 | transmit through a mock is the verified answer of the block, or the default response |
| Mock.MockConvertsNothing | lib/httpadapter/adapters/mock.rb:29-43 | every converter of a mock raises TypeError |

## Left out

- **Ruby 1.8 branches.** The model follows Ruby 1.9, where a String has no `#each`.
- **URI parsing.** Addressable::URI parsing is the parameter `parse` and never fails in the model. Normalisation is limited to downcasing the host and scheme and dropping default ports.
- **Net::HTTP internals.** Only the header table the adapter reads and writes is kept: downcased names mapped to lists of values, with the defaults Accept `*/*` and User-Agent `Ruby`. Request classes are named by their method, and response classes by their code.
- **`STATUS_MAPPING`.** It is `Net::HTTPResponse::CODE_TO_OBJ` and is passed in as the set of known code strings.
- **Network fetching.** `fetch_resource` of the Net::HTTP and Typhoeus adapters uses the network and threads, so it is a parameter of the adapter.
- **Rack's error stream.** Its `initialize` option `:error_stream` and the environment entries `rack.version` and `rack.errors` are not modelled.
- **Rack collaborators.** `Rack::Request#url` and `Rack::Response#finish` are parameters. The internals of `Rack::Response` are not modelled: its header Hash is kept, and the body is kept as given.
- **Typhoeus collaborators.** Typhoeus's `headers_hash` parser is a parameter. `ParseHeaderBlock` is a reference reader for the header block, following section 3.2 of RFC 7230. Request defaults added by Typhoeus itself, such as User-Agent, are not modelled.
- **Regular-expression anchors.** The Rack environment key pattern `/^HTTP_/` uses only `^`. In Ruby `^` also matches after a line feed; the model treats it as the start of the whole key, which differs only for keys that contain line feeds. The Typhoeus status-line pattern uses both `^` and `$`; `IsStatusName` models them line by line, as Ruby does.
- Rack.RequestRoundTrip: stated only for header names in Capitalized-Dash form without underscores and with distinct environment keys. Other names do not survive the trip through the Rack environment. The URI is outside the trip: `Rack::Request#url` is the parameter `url`, so the lemma does not say that the rebuilt URI equals the original one.
- Typhoeus.ResponseRoundTrip: its header half is stated against the reference reader `ParseHeaderBlock`, since `headers_hash` is a parameter; `Typhoeus.ResponseHeadersRoundTrip` gives the headers of the verified response under the assumption that `headers_hash` reads the block line by line.
- **The connection's own result.** `open`, `close` and `join` return whatever the handle answers. The model returns the message sent to the handle, and the handle's answer is not modelled.
- **`String#to_i`.** It is modelled for optional leading whitespace, a sign, digits and single underscores between digits. Other prefixes read as 0. Ruby's radix forms are not modelled.
- **Exception messages.** Their texts are kept as a tag naming the raise site, not as formatted strings.
