/**
 * The receiving side of an HTTPS peer (kernel/src/tls/https_peer.rs): the
 * header loop that feeds decrypted bytes to an HTTP/1.1 parser until the
 * head is complete, the body loop, and the translation of the parsed head
 * into a request or response builder.
 *
 * The peer sees its TLS connection only through `read_tls`, modelled as the
 * script `answers` of the answers successive calls give: the bytes of one
 * application-data record (cut to the free space of the slice, the rest
 * dropped, as `read_tls` does) or an error. An exhausted script answers 0,
 * as `read_tls` does once the peer has closed. The parser (`httparse`) is
 * the function `parse` from the bytes read so far to a parse status.
 */
module HttpsPeer {
  import opened Base
  import opened Error
  import opened HttpText
  import Request
  import Response

  /** `SvsmError::Tls(e)`, or a Rust panic (a subtraction that underflows, a slice out of bounds). */
  datatype PeerError = Tls(error: TlsError) | Panic

  /** What one `read_tls` call answers. */
  type ReadAnswer = Result<seq<byte>, TlsError>

  /** The start line of a parsed request or response, and its fields. */
  datatype ResponseStart = ResponseStart(version: Option<byte>, code: Option<Response.u16>, reason: Option<seq<byte>>)
  datatype RequestStart = RequestStart(verb: Option<seq<byte>>, path: Option<seq<byte>>, version: Option<byte>)
  datatype Parsed<L> = Parsed(start: L, headers: seq<Header>)

  /** `httparse::Status` and its error, as the parser reports them. */
  datatype ParseStatus<L> = Partial | Complete(bodyStart: nat, parsed: Parsed<L>) | Invalid

  /** The state of an `HttpsConnection` seen as a value. */
  datatype Peer = Peer(answers: seq<ReadAnswer>, buffer: seq<byte>, bodyStart: nat)

  const CONTENT_LENGTH_NAME: string := "Content-Length"

  // ---------------------------------------------------------------- reads

  /** One `read_tls(&mut buffer[at..])`. */
  function ReadInto(p: Peer, at: nat): (r: (Peer, Result<nat, TlsError>))
    requires at <= |p.buffer|
    ensures |r.0.buffer| == |p.buffer| && r.0.bodyStart == p.bodyStart
    ensures |r.0.answers| <= |p.answers|
    ensures r.1.Ok? ==> at + r.1.value <= |p.buffer|
    ensures r.1.Ok? && r.1.value > 0 ==> |r.0.answers| < |p.answers|
  {
    if |p.answers| == 0 then (p, Ok(0))
    else
      match p.answers[0]
      case Err(e) => (p.(answers := p.answers[1..]), Err(e))
      case Ok(data) =>
        var k := Min(|p.buffer| - at, |data|);
        (p.(answers := p.answers[1..], buffer := p.buffer[..at] + data[..k] + p.buffer[at + k..]), Ok(k))
  }

  /**
   * A read lands in `buffer[at..]` only: the bytes before `at` and after the
   * delivered ones are kept, and the delivered ones are the front of the
   * record, as many as fit.
   */
  lemma ReadPlacesBytes(p: Peer, at: nat)
    requires at <= |p.buffer|
    ensures var (q, r) := ReadInto(p, at);
      && q.buffer[..at] == p.buffer[..at]
      && (r.Ok? ==> q.buffer[at + r.value..] == p.buffer[at + r.value..])
      && (r.Ok? && r.value > 0 ==>
            && p.answers[0].Ok?
            && r.value == Min(|p.buffer| - at, |p.answers[0].value|)
            && q.buffer[at..at + r.value] == p.answers[0].value[..r.value])
  {
    if |p.answers| > 0 && p.answers[0].Ok? {
      var data := p.answers[0].value;
      var k := Min(|p.buffer| - at, |data|);
      var buffer := p.buffer[..at] + data[..k] + p.buffer[at + k..];
      assert buffer[..at] == p.buffer[..at];
      assert buffer[at..at + k] == data[..k];
      assert buffer[at + k..] == p.buffer[at + k..];
    }
  }

  // ---------------------------------------------------------------- header lookup

  /** A field `extract_content_length` accepts: the name matches ignoring ASCII case, the value is a UTF-8 `usize`. */
  predicate IsContentLengthField(h: Header) {
    EqIgnoreAsciiCase(h.name, CONTENT_LENGTH) && ValidUtf8(h.value) && ParseUsize(h.value).Some?
  }

  /** `hs[i]` is the first field the lookup accepts. */
  predicate FirstAccepted(hs: seq<Header>, i: int) {
    0 <= i < |hs| && IsContentLengthField(hs[i]) && forall j :: 0 <= j < i ==> !IsContentLengthField(hs[j])
  }

  /** The value of the first accepted Content-Length field. */
  function ContentLengthOf(hs: seq<Header>): (r: Option<nat>)
    ensures r.None? <==> forall i :: 0 <= i < |hs| ==> !IsContentLengthField(hs[i])
    ensures r.Some? ==> exists i :: FirstAccepted(hs, i) && ParseUsize(hs[i].value) == r
  {
    if |hs| == 0 then None
    else if IsContentLengthField(hs[0]) then ParseUsize(hs[0].value)
    else
      var r := ContentLengthOf(hs[1..]);
      assert r.Some? ==> exists i :: FirstAccepted(hs, i) && ParseUsize(hs[i].value) == r by {
        if r.Some? {
          var i :| FirstAccepted(hs[1..], i) && ParseUsize(hs[1..][i].value) == r;
          assert hs[i + 1] == hs[1..][i];
          forall j | 0 <= j < i + 1 ensures !IsContentLengthField(hs[j]) {
            if j > 0 { assert hs[j] == hs[1..][j - 1]; }
          }
          assert FirstAccepted(hs, i + 1);
        }
      }
      assert r.None? ==> forall i :: 1 <= i < |hs| ==> !IsContentLengthField(hs[i]) by {
        if r.None? {
          forall i | 1 <= i < |hs| ensures !IsContentLengthField(hs[i]) {
            assert hs[i] == hs[1..][i - 1];
          }
        }
      }
      r
  }

  /** `extract_content_length`: a search that stops at the first accepted field. */
  method ExtractContentLength(headers: seq<Header>) returns (r: Option<nat>)
    ensures r == ContentLengthOf(headers)
  {
    for i := 0 to |headers|
      invariant ContentLengthOf(headers) == ContentLengthOf(headers[i..])
    {
      var header := headers[i];
      if EqIgnoreAsciiCase(header.name, CONTENT_LENGTH) {
        if ValidUtf8(header.value) {
          var parsed := ParseUsize(header.value);
          if parsed.Some? {
            return parsed;
          }
        }
      }
      assert headers[i..][1..] == headers[i + 1..];
    }
    return None;
  }

  // ---------------------------------------------------------------- building the head

  /** A field `build_headers_*` keeps: name and value are both UTF-8 text. */
  predicate Kept(h: Header) {
    ValidUtf8(h.name) && ValidUtf8(h.value)
  }

  /** The header map after inserting every kept field in order into `m`. */
  function KeptHeaders(m: map<seq<byte>, seq<byte>>, hs: seq<Header>): map<seq<byte>, seq<byte>> {
    if |hs| == 0 then m
    else
      var prev := KeptHeaders(m, hs[..|hs| - 1]);
      var h := hs[|hs| - 1];
      if Kept(h) then prev[h.name := h.value] else prev
  }

  /** Whether the kept field `hs[i]` is the last kept field with its name. */
  predicate LastKeptWithName(hs: seq<Header>, i: nat)
    requires i < |hs|
  {
    Kept(hs[i]) && forall j :: i < j < |hs| && Kept(hs[j]) ==> hs[j].name != hs[i].name
  }

  /**
   * Folding the parsed fields into a builder: a name ends up in the map iff
   * it was there or some kept field carries it, its value is that of the
   * last kept field with that name, and names no kept field carries keep
   * their earlier value.
   */
  lemma {:induction false} KeptHeadersLastWins(m: map<seq<byte>, seq<byte>>, hs: seq<Header>)
    ensures var r := KeptHeaders(m, hs);
      && (forall i :: 0 <= i < |hs| && LastKeptWithName(hs, i) ==> hs[i].name in r && r[hs[i].name] == hs[i].value)
      && (forall k :: k in r ==> k in m || exists i :: 0 <= i < |hs| && Kept(hs[i]) && hs[i].name == k)
      && (forall k :: k in m && (forall i :: 0 <= i < |hs| && Kept(hs[i]) ==> hs[i].name != k) ==> k in r && r[k] == m[k])
  {
    if |hs| > 0 {
      var init := hs[..|hs| - 1];
      KeptHeadersLastWins(m, init);
      var r := KeptHeaders(m, hs);
      var prev := KeptHeaders(m, init);
      var h := hs[|hs| - 1];
      forall i | 0 <= i < |hs| && LastKeptWithName(hs, i)
        ensures hs[i].name in r && r[hs[i].name] == hs[i].value
      {
        if i < |hs| - 1 {
          assert init[i] == hs[i];
          assert LastKeptWithName(init, i) by {
            forall j | i < j < |init| && Kept(init[j]) ensures init[j].name != init[i].name {
              assert init[j] == hs[j];
            }
          }
        }
      }
      forall k | k in r
        ensures k in m || exists i :: 0 <= i < |hs| && Kept(hs[i]) && hs[i].name == k
      {
        if k in prev && !(k in m) {
          var i :| 0 <= i < |init| && Kept(init[i]) && init[i].name == k;
          assert hs[i] == init[i];
        } else if k !in prev {
          assert Kept(h) && h.name == k;
        }
      }
      forall k | k in m && (forall i :: 0 <= i < |hs| && Kept(hs[i]) ==> hs[i].name != k)
        ensures k in r && r[k] == m[k]
      {
        assert forall i :: 0 <= i < |init| && Kept(init[i]) ==> init[i].name != k by {
          forall i | 0 <= i < |init| && Kept(init[i]) ensures init[i].name != k {
            assert init[i] == hs[i];
          }
        }
      }
    }
  }

  /** `build_headers_request`: insert each kept field into the builder, in order. */
  method BuildHeadersRequest(builder: Request.HttpRequestBuilder, headers: seq<Header>)
    returns (r: Result<Request.HttpRequestBuilder, TlsError>)
    ensures r == Ok(builder.(headers := KeptHeaders(builder.headers, headers)))
  {
    var b := builder;
    for i := 0 to |headers|
      invariant b == builder.(headers := KeptHeaders(builder.headers, headers[..i]))
    {
      var header := headers[i];
      assert headers[..i + 1][..i] == headers[..i];
      if ValidUtf8(header.name) {
        if ValidUtf8(header.value) {
          b := Request.WithHeader(b, header.name, header.value);
        }
      }
    }
    assert headers[..|headers|] == headers;
    return Ok(b);
  }

  /** `build_headers_response`: insert each kept field into the builder, in order. */
  method BuildHeadersResponse(builder: Response.HttpResponseBuilder, headers: seq<Header>)
    returns (r: Result<Response.HttpResponseBuilder, TlsError>)
    ensures r == Ok(builder.(headers := KeptHeaders(builder.headers, headers)))
  {
    var b := builder;
    for i := 0 to |headers|
      invariant b == builder.(headers := KeptHeaders(builder.headers, headers[..i]))
    {
      var header := headers[i];
      assert headers[..i + 1][..i] == headers[..i];
      if ValidUtf8(header.name) {
        if ValidUtf8(header.value) {
          b := Response.WithHeader(b, header.name, header.value);
        }
      }
    }
    assert headers[..|headers|] == headers;
    return Ok(b);
  }

  /** The builder `build_http_response` makes from a parsed head. */
  function ResponseBuilderOf(parsed: Parsed<ResponseStart>): (b: Response.HttpResponseBuilder)
    ensures b.version == parsed.start.version && b.code == parsed.start.code && b.reason == parsed.start.reason
    ensures b.headers == KeptHeaders(map[], parsed.headers) && b.body == []
  {
    var b := Response.WithVersion(Response.WithReason(Response.WithCode(Response.NewBuilder(),
      parsed.start.code), parsed.start.reason), parsed.start.version);
    b.(headers := KeptHeaders(b.headers, parsed.headers))
  }

  /** The builder `build_http_request` makes from a parsed head. */
  function RequestBuilderOf(parsed: Parsed<RequestStart>): (b: Request.HttpRequestBuilder)
    ensures b.verb == parsed.start.verb && b.path == parsed.start.path && b.version == parsed.start.version
    ensures b.headers == KeptHeaders(map[], parsed.headers) && b.body == []
  {
    var b := Request.WithVersion(Request.WithPath(Request.WithMethod(Request.NewBuilder(),
      parsed.start.verb), parsed.start.path), parsed.start.version);
    b.(headers := KeptHeaders(b.headers, parsed.headers))
  }

  /** `build_http_response`. */
  method BuildHttpResponse(parsed: Parsed<ResponseStart>) returns (r: Result<Response.HttpResponseBuilder, TlsError>)
    ensures r == Ok(ResponseBuilderOf(parsed))
  {
    var builder := Response.WithVersion(Response.WithReason(Response.WithCode(Response.NewBuilder(),
      parsed.start.code), parsed.start.reason), parsed.start.version);
    r := BuildHeadersResponse(builder, parsed.headers);
  }

  /** `build_http_request`. */
  method BuildHttpRequest(parsed: Parsed<RequestStart>) returns (r: Result<Request.HttpRequestBuilder, TlsError>)
    ensures r == Ok(RequestBuilderOf(parsed))
  {
    var builder := Request.WithVersion(Request.WithPath(Request.WithMethod(Request.NewBuilder(),
      parsed.start.verb), parsed.start.path), parsed.start.version);
    r := BuildHeadersRequest(builder, parsed.headers);
  }

  // ---------------------------------------------------------------- header and body loops

  datatype HeadersRead<L> = HeadersRead(peer: Peer, result: Result<(nat, nat, Parsed<L>), PeerError>)

  /**
   * The loop of `parse_http_headers_*` from `totalRead` bytes on: read into
   * the free part of the buffer, give up on a 0-byte read, parse everything
   * read so far, and on a complete head look up Content-Length and record
   * where the body starts.
   */
  function HeadersLoop<L>(p: Peer, totalRead: nat, parse: seq<byte> -> ParseStatus<L>): (h: HeadersRead<L>)
    requires totalRead <= |p.buffer|
    ensures |h.peer.buffer| == |p.buffer|
    ensures h.result.Ok? ==> totalRead < h.result.value.0 <= |p.buffer|
    decreases |p.answers|
  {
    var (p1, r) := ReadInto(p, totalRead);
    if r.Err? then HeadersRead(p1, Err(Tls(r.error)))
    else if r.value == 0 then HeadersRead(p1, Err(Tls(TlsError.GenericError)))
    else
      var total := totalRead + r.value;
      var status := parse(p1.buffer[..total]);
      if status.Partial? then HeadersLoop(p1, total, parse)
      else Concluded(p1, total, status)
  }

  /**
   * What the header loop answers: on success, a head the parser reported
   * complete on exactly the bytes read, with an accepted Content-Length, and
   * the body start recorded; the bytes read before are never overwritten;
   * on failure the body start is untouched.
   */
  lemma {:induction false} HeadersLoopSound<L>(p: Peer, totalRead: nat, parse: seq<byte> -> ParseStatus<L>)
    requires totalRead <= |p.buffer|
    ensures var h := HeadersLoop(p, totalRead, parse);
      && h.peer.buffer[..totalRead] == p.buffer[..totalRead]
      && (h.result.Ok? ==>
        var (total, contentLength, parsed) := h.result.value;
        && parse(h.peer.buffer[..total]) == Complete(h.peer.bodyStart, parsed)
        && ContentLengthOf(parsed.headers) == Some(contentLength))
      && (h.result.Err? ==> h.peer.bodyStart == p.bodyStart)
    decreases |p.answers|
  {
    var (p1, r) := ReadInto(p, totalRead);
    ReadPlacesBytes(p, totalRead);
    if r.Ok? && r.value > 0 {
      var total := totalRead + r.value;
      var status := parse(p1.buffer[..total]);
      if status.Partial? {
        HeadersLoopSound(p1, total, parse);
        var h := HeadersLoop(p1, total, parse);
        assert p1.buffer[..totalRead] == p1.buffer[..total][..totalRead];
        assert h.peer.buffer[..totalRead] == h.peer.buffer[..total][..totalRead];
      } else {
        var h := Concluded(p1, total, status);
        assert h.peer.buffer[..totalRead] == h.peer.buffer[..total][..totalRead];
      }
    }
  }

  /**
   * How `parse_http_headers_*` ends on a complete head or a parse error,
   * with `total` bytes read: a complete head needs an accepted Content-Length
   * and records where the body starts.
   */
  function Concluded<L>(p: Peer, total: nat, status: ParseStatus<L>): (h: HeadersRead<L>)
    requires !status.Partial? && total <= |p.buffer|
    ensures |h.peer.buffer| == |p.buffer| && h.peer.buffer[..total] == p.buffer[..total]
    ensures h.result.Ok? ==>
      && status == Complete(h.peer.bodyStart, h.result.value.2)
      && h.result.value.0 == total
      && ContentLengthOf(h.result.value.2.headers) == Some(h.result.value.1)
    ensures h.result.Err? ==> h.peer.bodyStart == p.bodyStart
    ensures status.Invalid? ==> h.result == Err(Tls(Http(HttpError.GenericError)))
    ensures status.Complete? && ContentLengthOf(status.parsed.headers).None? ==>
      h.result == Err(Tls(Http(MissingHeader(CONTENT_LENGTH_NAME))))
  {
    match status
    case Complete(bodyStart, parsed) =>
      (match ContentLengthOf(parsed.headers)
       case None => HeadersRead(p, Err(Tls(Http(MissingHeader(CONTENT_LENGTH_NAME)))))
       case Some(contentLength) => HeadersRead(p.(bodyStart := bodyStart), Ok((total, contentLength, parsed))))
    case Invalid => HeadersRead(p, Err(Tls(Http(HttpError.GenericError))))
  }

  /** One round of the header loop that read `n > 0` bytes: go on on a partial head, conclude otherwise. */
  lemma HeadersStep<L>(p: Peer, totalRead: nat, parse: seq<byte> -> ParseStatus<L>, p1: Peer, n: nat)
    requires totalRead <= |p.buffer|
    requires ReadInto(p, totalRead) == (p1, Ok(n)) && n > 0
    ensures totalRead + n <= |p1.buffer|
    ensures var status := parse(p1.buffer[..totalRead + n]);
      HeadersLoop(p, totalRead, parse)
        == if status.Partial? then HeadersLoop(p1, totalRead + n, parse) else Concluded(p1, totalRead + n, status)
  {
  }

  /**
   * How the header loop fails at a read: a failed read is passed on as the
   * connection's error, and a read of no bytes is a `GenericError`.
   */
  lemma HeadersLoopReadFailures<L>(p: Peer, totalRead: nat, parse: seq<byte> -> ParseStatus<L>)
    requires totalRead <= |p.buffer|
    ensures |p.answers| > 0 && p.answers[0].Err? ==>
      HeadersLoop(p, totalRead, parse) == HeadersRead(p.(answers := p.answers[1..]), Err(Tls(p.answers[0].error)))
    ensures ReadInto(p, totalRead).1 == Ok(0) ==>
      HeadersLoop(p, totalRead, parse) == HeadersRead(ReadInto(p, totalRead).0, Err(Tls(TlsError.GenericError)))
    ensures |p.answers| == 0 ==> HeadersLoop(p, totalRead, parse) == HeadersRead(p, Err(Tls(TlsError.GenericError)))
  {
  }

  datatype BodyRun = BodyRun(peer: Peer, result: Result<(), TlsError>)

  /** The `while body_read < to_read` loop of `parse_http_body`. */
  function BodyLoop(p: Peer, totalRead: nat, bodyRead: nat, toRead: nat): (b: BodyRun)
    requires totalRead + bodyRead <= |p.buffer|
    ensures |b.peer.buffer| == |p.buffer| && b.peer.bodyStart == p.bodyStart
    decreases |p.answers|
  {
    if bodyRead >= toRead then BodyRun(p, Ok(()))
    else
      var (p1, r) := ReadInto(p, totalRead + bodyRead);
      if r.Err? then BodyRun(p1, Err(r.error))
      else if r.value == 0 then BodyRun(p1, Ok(()))
      else BodyLoop(p1, totalRead, bodyRead + r.value, toRead)
  }

  /** One round of the body loop: a failed read ends it, an empty read ends it well, any other goes on. */
  lemma BodyStep(p: Peer, totalRead: nat, bodyRead: nat, toRead: nat, p1: Peer, r: Result<nat, TlsError>)
    requires totalRead + bodyRead <= |p.buffer| && bodyRead < toRead
    requires ReadInto(p, totalRead + bodyRead) == (p1, r)
    ensures r.Ok? ==> totalRead + bodyRead + r.value <= |p1.buffer|
    ensures BodyLoop(p, totalRead, bodyRead, toRead)
      == if r.Err? then BodyRun(p1, Err(r.error))
         else if r.value == 0 then BodyRun(p1, Ok(()))
         else BodyLoop(p1, totalRead, bodyRead + r.value, toRead)
  {
  }

  datatype BodyRead = BodyRead(peer: Peer, result: Result<nat, PeerError>)

  /**
   * `parse_http_body(content_length, total_read)`: a panic when
   * `body_start + content_length` overflows a `usize`; nothing to do when the
   * body is already in; a panic when more than the body was read (the
   * `usize` subtraction underflows); otherwise read until the rest of the
   * body arrived or a read returns 0. It answers `content_length` whenever
   * it does not fail, however many bytes arrived.
   */
  function ParseBody(p: Peer, contentLength: nat, totalRead: nat): (b: BodyRead)
    requires totalRead <= |p.buffer|
    ensures |b.peer.buffer| == |p.buffer| && b.peer.bodyStart == p.bodyStart
    ensures b.peer.buffer[..totalRead] == p.buffer[..totalRead]
    ensures b.result.Ok? ==> b.result.value == contentLength && p.bodyStart + contentLength <= USIZE_MAX
    ensures b.result == Err(Panic) <==>
      p.bodyStart + contentLength > USIZE_MAX || totalRead > p.bodyStart + contentLength
    ensures totalRead == p.bodyStart + contentLength <= USIZE_MAX ==> b == BodyRead(p, Ok(contentLength))
  {
    if p.bodyStart + contentLength > USIZE_MAX then BodyRead(p, Err(Panic))
    else if totalRead == p.bodyStart + contentLength then BodyRead(p, Ok(contentLength))
    else if totalRead > p.bodyStart + contentLength then BodyRead(p, Err(Panic))
    else
      var run := BodyLoop(p, totalRead, 0, p.bodyStart + contentLength - totalRead);
      BodyLoopKeepsHead(p, totalRead, 0, p.bodyStart + contentLength - totalRead);
      if run.result.Err? then BodyRead(run.peer, Err(Tls(run.result.error)))
      else BodyRead(run.peer, Ok(contentLength))
  }

  datatype BodyReceived = BodyReceived(peer: Peer, result: Result<seq<byte>, PeerError>)

  /**
   * The part of `receive_response` / `receive_request` after the head: refuse
   * a Content-Length of 0, read the body, and cut `buffer[body_start..body_start + n]`
   * for the `n` that `parse_http_body` answers (a panic when that is out of bounds).
   */
  function BodyOf(p: Peer, headersLength: nat, contentLength: nat): (b: BodyReceived)
    requires headersLength <= |p.buffer|
    ensures contentLength == 0 ==> b == BodyReceived(p, Err(Tls(Http(MissingHeader(CONTENT_LENGTH_NAME)))))
    ensures b.result.Ok? ==>
      && contentLength > 0
      && b.peer.bodyStart + contentLength <= |b.peer.buffer|
      && b.peer.bodyStart + contentLength <= USIZE_MAX
      && b.result.value == b.peer.buffer[b.peer.bodyStart..b.peer.bodyStart + contentLength]
    ensures b.peer.bodyStart == p.bodyStart
  {
    if contentLength == 0 then BodyReceived(p, Err(Tls(Http(MissingHeader(CONTENT_LENGTH_NAME)))))
    else
      var read := ParseBody(p, contentLength, headersLength);
      if read.result.Err? then BodyReceived(read.peer, Err(read.result.error))
      else
        var q := read.peer;
        var bodyRead := read.result.value;
        if q.bodyStart + bodyRead > |q.buffer| then BodyReceived(q, Err(Panic))
        else BodyReceived(q, Ok(q.buffer[q.bodyStart..q.bodyStart + bodyRead]))
  }

  datatype Received<L> = Received(peer: Peer, result: Result<(Parsed<L>, seq<byte>), PeerError>)

  /** `receive_response` / `receive_request` up to building the message: the parsed head and the body. */
  function Receive<L>(p: Peer, parse: seq<byte> -> ParseStatus<L>): Received<L> {
    var h := HeadersLoop(p, 0, parse);
    if h.result.Err? then Received(h.peer, Err(h.result.error))
    else
      var b := BodyOf(h.peer, h.result.value.0, h.result.value.1);
      if b.result.Err? then Received(b.peer, Err(b.result.error))
      else Received(b.peer, Ok((h.result.value.2, b.result.value)))
  }

  /** The response `receive_response` returns for a parsed head and body. */
  function ResponseOf(parsed: Parsed<ResponseStart>, body: seq<byte>): Response.HttpResponse {
    Response.Build(Response.WithBody(ResponseBuilderOf(parsed), body)).value
  }

  /** The request `receive_request` returns for a parsed head and body. */
  function RequestOf(parsed: Parsed<RequestStart>, body: seq<byte>): Request.HttpRequest {
    Request.Build(Request.WithBody(RequestBuilderOf(parsed), body)).value
  }

  // ---------------------------------------------------------------- properties

  /**
   * A received message carries the head the parser reported complete, and
   * that head's first accepted Content-Length is positive.
   */
  lemma ReceivedHeadIsParsed<L>(p: Peer, parse: seq<byte> -> ParseStatus<L>)
    requires Receive(p, parse).result.Ok?
    ensures var run := Receive(p, parse);
      var h := HeadersLoop(p, 0, parse);
      && h.result.Ok?
      && run.result.value.0 == h.result.value.2
      && ContentLengthOf(h.result.value.2.headers) == Some(h.result.value.1)
      && h.result.value.1 > 0
      && parse(h.peer.buffer[..h.result.value.0]) == Complete(run.peer.bodyStart, h.result.value.2)
  {
    HeadersLoopSound(p, 0, parse);
    var h := HeadersLoop(p, 0, parse);
    var b := BodyOf(h.peer, h.result.value.0, h.result.value.1);
    assert b.peer.bodyStart == h.peer.bodyStart;
  }

  /**
   * A received message always has a body of exactly the announced
   * Content-Length, whether or not that many bytes arrived.
   */
  lemma ReceivedBodyIsContentLength<L>(p: Peer, parse: seq<byte> -> ParseStatus<L>)
    requires Receive(p, parse).result.Ok?
    ensures var (parsed, body) := Receive(p, parse).result.value;
      ContentLengthOf(parsed.headers) == Some(|body|)
  {
    ReceivedHeadIsParsed(p, parse);
    var h := HeadersLoop(p, 0, parse);
    var b := BodyOf(h.peer, h.result.value.0, h.result.value.1);
    assert Receive(p, parse).result.value.1 == b.result.value;
  }

  /** The body of a received message is cut from the buffer at the start the parser reported. */
  lemma ReceivedBodyIsBufferSlice<L>(p: Peer, parse: seq<byte> -> ParseStatus<L>)
    requires Receive(p, parse).result.Ok?
    ensures var run := Receive(p, parse);
      var body := run.result.value.1;
      && run.peer.bodyStart + |body| <= |run.peer.buffer|
      && run.peer.bodyStart + |body| <= USIZE_MAX
      && body == run.peer.buffer[run.peer.bodyStart..run.peer.bodyStart + |body|]
  {
    var h := HeadersLoop(p, 0, parse);
    var b := BodyOf(h.peer, h.result.value.0, h.result.value.1);
    assert Receive(p, parse).result.value.1 == b.result.value;
    assert Receive(p, parse).peer == b.peer;
  }

  /** A head announcing Content-Length 0 is refused as if the field were missing. */
  lemma ZeroContentLengthRefused<L>(p: Peer, parse: seq<byte> -> ParseStatus<L>)
    requires HeadersLoop(p, 0, parse).result.Ok? && HeadersLoop(p, 0, parse).result.value.1 == 0
    ensures Receive(p, parse).result == Err(Tls(Http(MissingHeader(CONTENT_LENGTH_NAME))))
  {
  }

  /** The body loop never touches the bytes already read, the head among them. */
  lemma {:induction false} BodyLoopKeepsHead(p: Peer, totalRead: nat, bodyRead: nat, toRead: nat)
    requires totalRead + bodyRead <= |p.buffer|
    ensures var b := BodyLoop(p, totalRead, bodyRead, toRead);
      b.peer.buffer[..totalRead + bodyRead] == p.buffer[..totalRead + bodyRead]
    decreases |p.answers|
  {
    if bodyRead < toRead {
      var (p1, r) := ReadInto(p, totalRead + bodyRead);
      ReadPlacesBytes(p, totalRead + bodyRead);
      if r.Ok? && r.value > 0 {
        BodyLoopKeepsHead(p1, totalRead, bodyRead + r.value, toRead);
        var b := BodyLoop(p1, totalRead, bodyRead + r.value, toRead);
        assert b.peer.buffer[..totalRead + bodyRead] == b.peer.buffer[..totalRead + bodyRead + r.value][..totalRead + bodyRead];
        assert p1.buffer[..totalRead + bodyRead] == p1.buffer[..totalRead + bodyRead + r.value][..totalRead + bodyRead];
      }
    }
  }

  /**
   * When the serialiser adds Content-Length and no entry of the map is
   * itself accepted as one, the lookup on the emitted fields finds exactly
   * the body length: the added field and the reader agree.
   */
  lemma ContentLengthRoundTrip(headers: map<seq<byte>, seq<byte>>, order: seq<seq<byte>>, body: seq<byte>)
    requires Enumerates(order, headers)
    requires AddsContentLength(headers, body) && |body| <= USIZE_MAX
    requires forall k :: k in headers ==> !IsContentLengthField(Header(k, headers[k]))
    ensures ContentLengthOf(EmittedFields(headers, order, body)) == Some(|body|)
  {
    var fs := EmittedFields(headers, order, body);
    var d := Decimal(|body|);
    assert IsAscii(d) by {
      forall i | 0 <= i < |d| ensures d[i] < 0x80 {
        assert IsDigit(d[i]);
      }
    }
    AsciiIsUtf8(d);
    ParseDecimal(|body|);
    assert IsContentLengthField(fs[|order|]);
    forall i | 0 <= i < |order| ensures !IsContentLengthField(fs[i]) {
      assert fs[i] == fs[..|order|][i];
    }
  }

  /**
   * The insertion test is case-sensitive while the lookup is not: a map
   * holding `content-length: 5` with a 3-byte body is emitted with two
   * fields the lookup accepts, and the lookup answers 5, not the length of
   * the body sent.
   */
  lemma CaseSensitiveInsertion()
    ensures var name := Ascii("content-length");
      var headers := map[name := Ascii("5")];
      var body: seq<byte> := [0, 0, 0];
      var fs := EmittedFields(headers, [name], body);
      && Enumerates([name], headers)
      && |fs| == 2
      && IsContentLengthField(fs[0]) && IsContentLengthField(fs[1])
      && ContentLengthOf(fs) == Some(5)
  {
    var name := Ascii("content-length");
    var headers := map[name := Ascii("5")];
    var body: seq<byte> := [0, 0, 0];
    var fs := EmittedFields(headers, [name], body);
    assert name != CONTENT_LENGTH by { assert name[0] != CONTENT_LENGTH[0]; }
    assert fs[0] == Header(name, Ascii("5"));
    assert fs[1] == Header(CONTENT_LENGTH, [ZERO + 3]);
    assert ValidUtf8(Ascii("5")) by { AsciiIsUtf8(Ascii("5")); }
    assert ValidUtf8([ZERO + 3]) by { AsciiIsUtf8([ZERO + 3]); }
    assert DigitsValue(Ascii("5")) == 5 by { assert Ascii("5")[..0] == []; }
    assert DigitsValue([ZERO + 3]) == 3 by { assert [ZERO + 3][..0] == []; }
  }

  // ---------------------------------------------------------------- the connection

  /** `HttpsConnection`: the TLS connection's reads, the receive buffer and where the body starts. */
  class HttpsConnection {
    var answers: seq<ReadAnswer>
    const buffer: array<byte>
    var bodyStart: nat

    function Abs(): Peer
      reads this, buffer
    {
      Peer(answers, buffer[..], bodyStart)
    }

    /** The allocation done by `HttpsPeer::connect`: a zeroed buffer of `bufferSize` bytes, body start 0. */
    constructor(answers: seq<ReadAnswer>, bufferSize: nat)
      ensures Abs() == Peer(answers, seq(bufferSize, _ => 0), 0)
      ensures fresh(buffer)
    {
      this.answers := answers;
      this.buffer := new byte[bufferSize](_ => 0);
      this.bodyStart := 0;
      new;
      assert buffer[..] == seq(bufferSize, _ => 0);
    }

    /** `tls_connection.read_tls(&mut self.buffer[at..])`. */
    method ReadTls(at: nat) returns (r: Result<nat, TlsError>)
      requires at <= buffer.Length
      modifies this, buffer
      ensures (Abs(), r) == ReadInto(old(Abs()), at)
    {
      if |answers| == 0 {
        return Ok(0);
      }
      var answer := answers[0];
      answers := answers[1..];
      if answer.Err? {
        return Err(answer.error);
      }
      var data := answer.value;
      var k := Min(buffer.Length - at, |data|);
      for i := 0 to k
        invariant answers == old(answers)[1..] && bodyStart == old(bodyStart)
        invariant forall j :: 0 <= j < buffer.Length ==>
          buffer[j] == (if at <= j < at + i then data[j - at] else old(buffer[j]))
      {
        buffer[at + i] := data[i];
      }
      assert buffer[..] == old(buffer[..])[..at] + data[..k] + old(buffer[..])[at + k..];
      return Ok(k);
    }

    /** The loop shared by `parse_http_headers_response` and `parse_http_headers_request`. */
    method ParseHttpHeaders<L>(parse: seq<byte> -> ParseStatus<L>) returns (r: Result<(nat, nat, Parsed<L>), PeerError>)
      modifies this, buffer
      ensures HeadersRead(Abs(), r) == HeadersLoop(old(Abs()), 0, parse)
    {
      var totalRead := 0;
      ghost var run := HeadersLoop(Abs(), 0, parse);
      while true
        invariant totalRead <= buffer.Length
        invariant HeadersLoop(Abs(), totalRead, parse) == run
        decreases |answers|
      {
        ghost var before := Abs();
        ghost var previous := totalRead;
        var partial := ReadTls(totalRead);
        if partial.Err? {
          return Err(Tls(partial.error));
        }
        if partial.value == 0 {
          return Err(Tls(TlsError.GenericError));
        }
        totalRead := totalRead + partial.value;
        var status := parse(buffer[..totalRead]);
        ghost var after := Abs();
        assert after.buffer[..totalRead] == buffer[..totalRead];
        HeadersStep(before, previous, parse, after, partial.value);
        if !status.Partial? {
          r := ConcludeHeaders(totalRead, status);
          return;
        }
      }
    }

    /** The `Complete` and error arms of the header loop's `match`. */
    method ConcludeHeaders<L>(totalRead: nat, status: ParseStatus<L>) returns (r: Result<(nat, nat, Parsed<L>), PeerError>)
      requires !status.Partial? && totalRead <= buffer.Length
      modifies this
      ensures HeadersRead(Abs(), r) == Concluded(old(Abs()), totalRead, status)
    {
      match status {
        case Complete(start, parsed) =>
          var contentLength := ExtractContentLength(parsed.headers);
          if contentLength.None? {
            return Err(Tls(Http(MissingHeader(CONTENT_LENGTH_NAME))));
          }
          bodyStart := start;
          return Ok((totalRead, contentLength.value, parsed));
        case Invalid =>
          return Err(Tls(Http(HttpError.GenericError)));
      }
    }

    /** `parse_http_headers_response`. */
    method ParseHttpHeadersResponse(parse: seq<byte> -> ParseStatus<ResponseStart>)
      returns (r: Result<(nat, nat, Response.HttpResponseBuilder), PeerError>)
      modifies this, buffer
      ensures var h := HeadersLoop(old(Abs()), 0, parse);
        Abs() == h.peer
        && r == (if h.result.Ok? then Ok((h.result.value.0, h.result.value.1, ResponseBuilderOf(h.result.value.2)))
                 else Err(h.result.error))
    {
      var head := ParseHttpHeaders(parse);
      if head.Err? {
        return Err(head.error);
      }
      var builder := BuildHttpResponse(head.value.2);
      return Ok((head.value.0, head.value.1, builder.value));
    }

    /** `parse_http_headers_request`. */
    method ParseHttpHeadersRequest(parse: seq<byte> -> ParseStatus<RequestStart>)
      returns (r: Result<(nat, nat, Request.HttpRequestBuilder), PeerError>)
      modifies this, buffer
      ensures var h := HeadersLoop(old(Abs()), 0, parse);
        Abs() == h.peer
        && r == (if h.result.Ok? then Ok((h.result.value.0, h.result.value.1, RequestBuilderOf(h.result.value.2)))
                 else Err(h.result.error))
    {
      var head := ParseHttpHeaders(parse);
      if head.Err? {
        return Err(head.error);
      }
      var builder := BuildHttpRequest(head.value.2);
      return Ok((head.value.0, head.value.1, builder.value));
    }

    /** `parse_http_body(content_length, total_read)`. */
    method ParseHttpBody(contentLength: nat, totalRead: nat) returns (r: Result<nat, PeerError>)
      requires totalRead <= buffer.Length
      modifies this, buffer
      ensures BodyRead(Abs(), r) == ParseBody(old(Abs()), contentLength, totalRead)
    {
      if bodyStart + contentLength > USIZE_MAX {
        return Err(Panic);
      }
      if totalRead == bodyStart + contentLength {
        return Ok(contentLength);
      }
      if totalRead > bodyStart + contentLength {
        return Err(Panic);
      }
      var toRead := bodyStart + contentLength - totalRead;
      var read := ReadBody(totalRead, toRead);
      if read.Err? {
        return Err(Tls(read.error));
      }
      return Ok(contentLength);
    }

    /** The `while body_read < to_read` loop of `parse_http_body`. */
    method ReadBody(totalRead: nat, toRead: nat) returns (r: Result<(), TlsError>)
      requires totalRead <= buffer.Length
      modifies this, buffer
      ensures BodyRun(Abs(), r) == BodyLoop(old(Abs()), totalRead, 0, toRead)
    {
      var bodyRead: nat := 0;
      ghost var run := BodyLoop(Abs(), totalRead, 0, toRead);
      while bodyRead < toRead
        invariant totalRead + bodyRead <= buffer.Length
        invariant BodyLoop(Abs(), totalRead, bodyRead, toRead) == run
        decreases toRead - bodyRead
      {
        ghost var before := Abs();
        var partial := ReadTls(totalRead + bodyRead);
        if partial.Err? {
          BodyStep(before, totalRead, bodyRead, toRead, Abs(), partial);
          return Err(partial.error);
        }
        BodyStep(before, totalRead, bodyRead, toRead, Abs(), partial);
        if partial.value == 0 {
          return Ok(());
        }
        bodyRead := bodyRead + partial.value;
      }
      return Ok(());
    }

    /** The part of `receive_*` after the head. */
    method ReceiveBody(headersLength: nat, contentLength: nat) returns (r: Result<seq<byte>, PeerError>)
      requires headersLength <= buffer.Length
      modifies this, buffer
      ensures BodyReceived(Abs(), r) == BodyOf(old(Abs()), headersLength, contentLength)
    {
      if contentLength == 0 {
        return Err(Tls(Http(MissingHeader(CONTENT_LENGTH_NAME))));
      }
      var bodyRead := ParseHttpBody(contentLength, headersLength);
      if bodyRead.Err? {
        return Err(bodyRead.error);
      }
      if bodyStart + bodyRead.value > buffer.Length {
        return Err(Panic);
      }
      return Ok(buffer[bodyStart..bodyStart + bodyRead.value]);
    }

    /** `receive_response`. */
    method ReceiveResponse(parse: seq<byte> -> ParseStatus<ResponseStart>) returns (r: Result<Response.HttpResponse, PeerError>)
      modifies this, buffer
      ensures var run := Receive(old(Abs()), parse);
        Abs() == run.peer
        && r == (if run.result.Ok? then Ok(ResponseOf(run.result.value.0, run.result.value.1)) else Err(run.result.error))
    {
      var head := ParseHttpHeadersResponse(parse);
      if head.Err? {
        return Err(head.error);
      }
      var (headersLength, contentLength, builder) := head.value;
      var body := ReceiveBody(headersLength, contentLength);
      if body.Err? {
        return Err(body.error);
      }
      var response := Response.Build(Response.WithBody(builder, body.value));
      return Ok(response.value);
    }

    /** `receive_request`. */
    method ReceiveRequest(parse: seq<byte> -> ParseStatus<RequestStart>) returns (r: Result<Request.HttpRequest, PeerError>)
      modifies this, buffer
      ensures var run := Receive(old(Abs()), parse);
        Abs() == run.peer
        && r == (if run.result.Ok? then Ok(RequestOf(run.result.value.0, run.result.value.1)) else Err(run.result.error))
    {
      var head := ParseHttpHeadersRequest(parse);
      if head.Err? {
        return Err(head.error);
      }
      var (headersLength, contentLength, builder) := head.value;
      var body := ReceiveBody(headersLength, contentLength);
      if body.Err? {
        return Err(body.error);
      }
      var request := Request.Build(Request.WithBody(builder, body.value));
      return Ok(request.value);
    }
  }
}
