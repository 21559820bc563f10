/**
 * An outgoing HTTP/1.1 request (kernel/src/tls/http/request.rs): the
 * builder, the request value and its serialisation into the message
 * layout of section 2.1 of RFC 9112.
 */
module Request {
  import opened Base
  import opened Error
  import opened HttpText

  /** Method and path are UTF-8 text; the version is the minor digit of `HTTP/1.x`. */
  datatype HttpRequest = HttpRequest(
    verb: Option<seq<byte>>,
    path: Option<seq<byte>>,
    version: Option<byte>,
    headers: map<seq<byte>, seq<byte>>,
    body: seq<byte>)

  datatype HttpRequestBuilder = HttpRequestBuilder(
    verb: Option<seq<byte>>,
    path: Option<seq<byte>>,
    version: Option<byte>,
    headers: map<seq<byte>, seq<byte>>,
    body: seq<byte>)

  /** The request line used when method, path or version is missing. */
  /** `GET / HTTP/1.1` CRLF */
  const DEFAULT_REQUEST_LINE: seq<byte> := [71, 69, 84, 32, 47, 32, 72, 84, 84, 80, 47, 49, 46, 49, 13, 10]
  /** SP `HTTP/1.` */
  const HTTP_VERSION_PREFIX: seq<byte> := [32, 72, 84, 84, 80, 47, 49, 46]

  predicate HasRequestLine(req: HttpRequest) {
    req.verb.Some? && req.path.Some? && req.version.Some?
  }

  /** `"{method} {path} HTTP/1.{version}\r\n"`, or the default line. */
  function RequestLine(req: HttpRequest): (line: seq<byte>)
    ensures |line| >= 2 && line[|line| - 2..] == CRLF
    ensures !HasRequestLine(req) ==> line == DEFAULT_REQUEST_LINE
  {
    if HasRequestLine(req) then
      req.verb.value + SP + req.path.value + HTTP_VERSION_PREFIX + Decimal(req.version.value) + CRLF
    else
      DEFAULT_REQUEST_LINE
  }

  /** The whole serialised message: the request line, the header section, the body. */
  function RequestBytes(req: HttpRequest, order: seq<seq<byte>>): seq<byte>
    requires forall k :: k in order ==> k in req.headers
  {
    RequestLine(req) + HeaderSection(req.headers, order, req.body) + req.body
  }

  /**
   * The serialised message starts with its request line, ends with the body
   * exactly, and the empty line sits right before the body.
   */
  lemma RequestLayout(req: HttpRequest, order: seq<seq<byte>>)
    requires forall k :: k in order ==> k in req.headers
    ensures var bytes := RequestBytes(req, order);
      var line := RequestLine(req);
      var n := |bytes| - |req.body|;
      && |line| + 2 <= n
      && bytes[..|line|] == line
      && bytes[n..] == req.body
      && bytes[n - 2..n] == CRLF
  {
    MessageLayout(RequestLine(req), HeaderSection(req.headers, order, req.body), req.body);
  }

  /**
   * `HttpRequest::to_bytes`: the request line, the field lines in the map's
   * iteration order `order`, the added Content-Length, the empty line, the body.
   */
  method ToBytes(req: HttpRequest, order: seq<seq<byte>>) returns (bytes: seq<byte>)
    requires Enumerates(order, req.headers)
    ensures bytes == RequestBytes(req, order)
  {
    var requestLine := RenderRequestLine(req);
    var headers := RenderHeaderSection(req.headers, order, req.body);
    bytes := requestLine + headers + req.body;
  }

  /** The request-line part of `to_bytes`. */
  method RenderRequestLine(req: HttpRequest) returns (line: seq<byte>)
    ensures line == RequestLine(req)
  {
    line := [];
    if req.verb.Some? && req.path.Some? && req.version.Some? {
      line := line + req.verb.value + SP + req.path.value + HTTP_VERSION_PREFIX
        + Decimal(req.version.value) + CRLF;
    } else {
      line := line + DEFAULT_REQUEST_LINE;
    }
  }

  /**
   * When method, path and version are all set, the request line splits back
   * into them: the method, a space, the path, ` HTTP/1.`, a numeral that
   * parses back to the version, and CRLF.
   */
  lemma RequestLineParts(req: HttpRequest)
    requires HasRequestLine(req)
    ensures exists dv ::
      && RequestLine(req) == req.verb.value + SP + req.path.value + HTTP_VERSION_PREFIX + dv + CRLF
      && ParseUsize(dv) == Some(req.version.value as nat)
  {
    var dv := Decimal(req.version.value);
    ParseDecimal(req.version.value);
    assert RequestLine(req) == req.verb.value + SP + req.path.value + HTTP_VERSION_PREFIX + dv + CRLF;
  }

  /** `HttpRequestBuilder::new`: nothing set, no headers, empty body. */
  function NewBuilder(): (b: HttpRequestBuilder)
    ensures b.verb.None? && b.path.None? && b.version.None?
    ensures b.headers == map[] && b.body == []
  {
    HttpRequestBuilder(None, None, None, map[], [])
  }

  function WithMethod(b: HttpRequestBuilder, verb: Option<seq<byte>>): (r: HttpRequestBuilder)
    ensures r.verb == verb && r.(verb := b.verb) == b
  {
    b.(verb := verb)
  }

  function WithPath(b: HttpRequestBuilder, path: Option<seq<byte>>): (r: HttpRequestBuilder)
    ensures r.path == path && r.(path := b.path) == b
  {
    b.(path := path)
  }

  function WithVersion(b: HttpRequestBuilder, version: Option<byte>): (r: HttpRequestBuilder)
    ensures r.version == version && r.(version := b.version) == b
  {
    b.(version := version)
  }

  /** `header(name, value)`: inserts into the map, replacing an earlier value for the same name. */
  function WithHeader(b: HttpRequestBuilder, name: seq<byte>, value: seq<byte>): (r: HttpRequestBuilder)
    ensures name in r.headers && r.headers[name] == value
    ensures r.headers.Keys == b.headers.Keys + {name}
    ensures forall k :: k in b.headers && k != name ==> r.headers[k] == b.headers[k]
    ensures r.(headers := b.headers) == b
  {
    b.(headers := b.headers[name := value])
  }

  function WithBody(b: HttpRequestBuilder, body: seq<byte>): (r: HttpRequestBuilder)
    ensures r.body == body && r.(body := b.body) == b
  {
    b.(body := body)
  }

  /** `build`: never fails, and the request carries every field of the builder unchanged. */
  function Build(b: HttpRequestBuilder): (r: Result<HttpRequest, HttpError>)
    ensures r.Ok?
    ensures r.value.verb == b.verb && r.value.path == b.path && r.value.version == b.version
    ensures r.value.headers == b.headers && r.value.body == b.body
  {
    Ok(HttpRequest(b.verb, b.path, b.version, b.headers, b.body))
  }

  /** Setting a header twice keeps only the second value. */
  lemma HeaderReplaces(b: HttpRequestBuilder, name: seq<byte>, v1: seq<byte>, v2: seq<byte>)
    ensures WithHeader(WithHeader(b, name, v1), name, v2) == WithHeader(b, name, v2)
  {
    assert WithHeader(WithHeader(b, name, v1), name, v2).headers == WithHeader(b, name, v2).headers;
  }

  /** Headers with different names can be set in either order. */
  lemma DistinctHeadersCommute(b: HttpRequestBuilder, n1: seq<byte>, v1: seq<byte>, n2: seq<byte>, v2: seq<byte>)
    requires n1 != n2
    ensures WithHeader(WithHeader(b, n1, v1), n2, v2) == WithHeader(WithHeader(b, n2, v2), n1, v1)
  {
    assert WithHeader(WithHeader(b, n1, v1), n2, v2).headers == WithHeader(WithHeader(b, n2, v2), n1, v1).headers;
  }

  /** An untouched builder yields the bare `GET / HTTP/1.1` request with its empty line. */
  lemma DefaultRequest()
    ensures Build(NewBuilder()).Ok?
    ensures RequestBytes(Build(NewBuilder()).value, []) == DEFAULT_REQUEST_LINE + CRLF
  {
    var req := Build(NewBuilder()).value;
    assert !HasRequestLine(req);
    assert RequestLine(req) == DEFAULT_REQUEST_LINE;
    assert EmittedFields(req.headers, [], req.body) == [];
    assert HeaderSection(req.headers, [], req.body) == CRLF;
    assert RequestBytes(req, []) == DEFAULT_REQUEST_LINE + CRLF + [];
  }
}
