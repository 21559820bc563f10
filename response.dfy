/**
 * An outgoing HTTP/1.1 response (kernel/src/tls/http/response.rs): the
 * builder with its `200 OK` defaults, the response value and its
 * serialisation into the message layout of section 2.1 of RFC 9112.
 */
module Response {
  import opened Base
  import opened Error
  import opened HttpText

  type u16 = x: int | 0 <= x < 0x1_0000

  datatype HttpResponse = HttpResponse(
    version: Option<byte>,
    code: Option<u16>,
    reason: Option<seq<byte>>,
    headers: map<seq<byte>, seq<byte>>,
    body: seq<byte>)

  datatype HttpResponseBuilder = HttpResponseBuilder(
    version: Option<byte>,
    code: Option<u16>,
    reason: Option<seq<byte>>,
    headers: map<seq<byte>, seq<byte>>,
    body: seq<byte>)

  /** The status line used when version, code or reason is missing. */
  /** `HTTP/1.1 200 OK` CRLF */
  const DEFAULT_STATUS_LINE: seq<byte> := [72, 84, 84, 80, 47, 49, 46, 49, 32, 50, 48, 48, 32, 79, 75, 13, 10]
  /** `HTTP/1.` */
  const HTTP_PREFIX: seq<byte> := [72, 84, 84, 80, 47, 49, 46]
  /** The default reason phrase, `OK`. */
  const REASON_OK: seq<byte> := [79, 75]

  predicate HasStatusLine(resp: HttpResponse) {
    resp.version.Some? && resp.code.Some? && resp.reason.Some?
  }

  /** `"HTTP/1.{version} {code} {reason}\r\n"`, or the default line. */
  function StatusLine(resp: HttpResponse): (line: seq<byte>)
    ensures |line| >= 2 && line[|line| - 2..] == CRLF
    ensures !HasStatusLine(resp) ==> line == DEFAULT_STATUS_LINE
  {
    if HasStatusLine(resp) then
      HTTP_PREFIX + Decimal(resp.version.value) + SP + Decimal(resp.code.value) + SP + resp.reason.value + CRLF
    else
      DEFAULT_STATUS_LINE
  }

  /** The whole serialised message: the status line, the header section, the body. */
  function ResponseBytes(resp: HttpResponse, order: seq<seq<byte>>): seq<byte>
    requires forall k :: k in order ==> k in resp.headers
  {
    StatusLine(resp) + HeaderSection(resp.headers, order, resp.body) + resp.body
  }

  /**
   * The serialised message starts with its status line, ends with the body
   * exactly, and the empty line sits right before the body.
   */
  lemma ResponseLayout(resp: HttpResponse, order: seq<seq<byte>>)
    requires forall k :: k in order ==> k in resp.headers
    ensures var bytes := ResponseBytes(resp, order);
      var line := StatusLine(resp);
      var n := |bytes| - |resp.body|;
      && |line| + 2 <= n
      && bytes[..|line|] == line
      && bytes[n..] == resp.body
      && bytes[n - 2..n] == CRLF
  {
    MessageLayout(StatusLine(resp), HeaderSection(resp.headers, order, resp.body), resp.body);
  }

  /**
   * `HttpResponse::to_bytes`: the status line, the field lines in the map's
   * iteration order `order`, the added Content-Length, the empty line, the body.
   */
  method ToBytes(resp: HttpResponse, order: seq<seq<byte>>) returns (bytes: seq<byte>)
    requires Enumerates(order, resp.headers)
    ensures bytes == ResponseBytes(resp, order)
  {
    var statusLine := RenderStatusLine(resp);
    var headers := RenderHeaderSection(resp.headers, order, resp.body);
    bytes := statusLine + headers + resp.body;
  }

  /** The status-line part of `to_bytes`. */
  method RenderStatusLine(resp: HttpResponse) returns (line: seq<byte>)
    ensures line == StatusLine(resp)
  {
    line := [];
    if resp.version.Some? && resp.code.Some? && resp.reason.Some? {
      line := line + HTTP_PREFIX + Decimal(resp.version.value) + SP + Decimal(resp.code.value) + SP
        + resp.reason.value + CRLF;
    } else {
      line := line + DEFAULT_STATUS_LINE;
    }
  }

  /**
   * With every part present, the status line splits back into them: it is
   * `HTTP/1.`, a numeral that parses back to the version, a space, a numeral
   * that parses back to the code, a space, the reason and CRLF.
   */
  lemma StatusLineParts(resp: HttpResponse)
    requires HasStatusLine(resp)
    ensures exists dv, dc ::
      && StatusLine(resp) == HTTP_PREFIX + dv + SP + dc + SP + resp.reason.value + CRLF
      && ParseUsize(dv) == Some(resp.version.value as nat)
      && ParseUsize(dc) == Some(resp.code.value as nat)
  {
    var dv := Decimal(resp.version.value);
    var dc := Decimal(resp.code.value);
    ParseDecimal(resp.version.value);
    ParseDecimal(resp.code.value);
    assert StatusLine(resp) == HTTP_PREFIX + dv + SP + dc + SP + resp.reason.value + CRLF;
  }

  /** `HttpResponseBuilder::new`: version 1, code 200, reason "OK", no headers, empty body. */
  function NewBuilder(): (b: HttpResponseBuilder)
    ensures b.version == Some(1) && b.code == Some(200) && b.reason == Some(REASON_OK)
    ensures b.headers == map[] && b.body == []
  {
    HttpResponseBuilder(Some(1), Some(200), Some(REASON_OK), map[], [])
  }

  function WithVersion(b: HttpResponseBuilder, version: Option<byte>): (r: HttpResponseBuilder)
    ensures r.version == version && r.(version := b.version) == b
  {
    b.(version := version)
  }

  function WithCode(b: HttpResponseBuilder, code: Option<u16>): (r: HttpResponseBuilder)
    ensures r.code == code && r.(code := b.code) == b
  {
    b.(code := code)
  }

  function WithReason(b: HttpResponseBuilder, reason: Option<seq<byte>>): (r: HttpResponseBuilder)
    ensures r.reason == reason && r.(reason := b.reason) == b
  {
    b.(reason := reason)
  }

  /** `header(name, value)`: inserts into the map, replacing an earlier value for the same name. */
  function WithHeader(b: HttpResponseBuilder, name: seq<byte>, value: seq<byte>): (r: HttpResponseBuilder)
    ensures name in r.headers && r.headers[name] == value
    ensures r.headers.Keys == b.headers.Keys + {name}
    ensures forall k :: k in b.headers && k != name ==> r.headers[k] == b.headers[k]
    ensures r.(headers := b.headers) == b
  {
    b.(headers := b.headers[name := value])
  }

  function WithBody(b: HttpResponseBuilder, body: seq<byte>): (r: HttpResponseBuilder)
    ensures r.body == body && r.(body := b.body) == b
  {
    b.(body := body)
  }

  /** `build`: never fails, and the response carries every field of the builder unchanged. */
  function Build(b: HttpResponseBuilder): (r: Result<HttpResponse, HttpError>)
    ensures r.Ok?
    ensures r.value.version == b.version && r.value.code == b.code && r.value.reason == b.reason
    ensures r.value.headers == b.headers && r.value.body == b.body
  {
    Ok(HttpResponse(b.version, b.code, b.reason, b.headers, b.body))
  }

  /** Setting a header twice keeps only the second value. */
  lemma HeaderReplaces(b: HttpResponseBuilder, name: seq<byte>, v1: seq<byte>, v2: seq<byte>)
    ensures WithHeader(WithHeader(b, name, v1), name, v2) == WithHeader(b, name, v2)
  {
    assert WithHeader(WithHeader(b, name, v1), name, v2).headers == WithHeader(b, name, v2).headers;
  }

  /**
   * The builder's defaults render exactly the default status line, so an
   * untouched builder and one with a part cleared serialise alike.
   */
  lemma DefaultStatusLine(b: HttpResponseBuilder)
    requires b.version == Some(1) && b.code == Some(200) && b.reason == Some(REASON_OK)
    ensures StatusLine(Build(b).value) == DEFAULT_STATUS_LINE
    ensures StatusLine(Build(b).value) == StatusLine(Build(b.(code := None)).value)
  {
    assert Decimal(200) == Decimal(20) + [ZERO];
    assert Decimal(20) == Decimal(2) + [ZERO];
  }

  /** An untouched builder yields the bare `HTTP/1.1 200 OK` response with its empty line. */
  lemma DefaultResponse()
    ensures ResponseBytes(Build(NewBuilder()).value, []) == DEFAULT_STATUS_LINE + CRLF
  {
    var resp := Build(NewBuilder()).value;
    DefaultStatusLine(NewBuilder());
    assert EmittedFields(resp.headers, [], resp.body) == [];
    assert HeaderSection(resp.headers, [], resp.body) == CRLF;
  }
}
