/**
 * The value-level specification of `TlsConnection` (kernel/src/tls/connection.rs).
 *
 * The unbuffered TLS engine is an oracle: `engine` lists the answers its
 * `process_tls_records` gives, one per call, each an `UnbufferedStatus`
 * (bytes to discard, then a connection state or an error). What the engine's
 * per-state calls return (`encode`, `encrypt`, `queue_close_notify`,
 * `next_record`, `is_handshaking` after `done`) is carried by the state.
 * The vsock stream is the bytes it has yet to deliver (`incoming`) and the
 * log of what was written to it (`written`).
 *
 * `Advance` is one call of `tls_state_machine_advance`; the `*Run` functions
 * are the loops of `complete_handshake`, `read_tls`, `write_tls` and
 * `close_tls`. The class in module `Connection` is proved against them.
 */
module ConnectionSpec {
  import opened Base
  import opened Constant
  import opened Error
  import opened Buffer

  /** The six status flags (`ConnectionDetails`). */
  datatype ConnectionDetails = ConnectionDetails(
    handshakeComplete: bool,
    requestSent: bool,
    receivedResponse: bool,
    peerClosed: bool,
    ourSideClosed: bool,
    connectionClosed: bool)

  /** `ConnectionDetails::new()`: every flag false. */
  function NewDetails(): (d: ConnectionDetails)
    ensures !d.handshakeComplete && !d.requestSent && !d.receivedResponse
    ensures !d.peerClosed && !d.ourSideClosed && !d.connectionClosed
  {
    ConnectionDetails(false, false, false, false, false, false)
  }

  /**
   * What the caller intends (`TlsAction`). The destination buffer and the
   * running total of `ReadRecord` are passed beside the action.
   */
  datatype TlsAction = Handshake | ReadRecord | WriteRecord(buffer: seq<byte>) | CloseConnection

  /** A decrypted application-data record: bytes to discard and its payload. */
  datatype AppDataRecord = AppDataRecord(discard: nat, payload: seq<byte>)

  /** The engine's connection states, with what each state's calls return. */
  datatype ConnectionState =
    | /** `encode` would produce this handshake record (or fail). */
      EncodeTlsData(encoded: Result<seq<byte>, EncodeFailure>)
    | /** After `done()`, `is_handshaking()` answers `handshakingAfter`. */
      TransmitTlsData(handshakingAfter: bool)
    | BlockedHandshake
    | /** `encrypt(data)` and `queue_close_notify` would produce these records (or fail). */
      WriteTraffic(encrypt: seq<byte> -> Result<seq<byte>, EncryptFailure>,
                   closeNotify: Result<seq<byte>, EncryptFailure>)
    | /** What `next_record()` returns. */
      ReadTraffic(next: Option<Result<AppDataRecord, RustlsError>>)
    | PeerClosed
    | Closed
    | /** Any state the dispatcher does not list. */
      OtherState

  datatype UnbufferedStatus = UnbufferedStatus(discard: nat, state: Result<ConnectionState, RustlsError>)

  /** The whole state of a connection. */
  datatype Conn = Conn(
    engine: seq<UnbufferedStatus>,
    incoming: seq<byte>,
    written: seq<byte>,
    inBuf: BufferView,
    outBuf: BufferView,
    status: ConnectionDetails)

  /** Both buffers are well formed and keep the sizes `new` gave them. */
  predicate Inv(c: Conn) {
    WellFormed(c.inBuf) && WellFormed(c.outBuf)
    && |c.inBuf.bytes| == IN_BUF_SIZE && |c.outBuf.bytes| == OUT_BUF_SIZE
  }

  /** `TlsConnection::new`. */
  function NewConn(engine: seq<UnbufferedStatus>, incoming: seq<byte>): (c: Conn)
    ensures Inv(c) && c.status == NewDetails() && c.written == []
    ensures Used(c.inBuf) == [] && Used(c.outBuf) == []
  {
    Conn(engine, incoming, [], Empty(IN_BUF_SIZE), Empty(OUT_BUF_SIZE), NewDetails())
  }

  /** A connection and the result of an operation on it. */
  datatype Stepped = Stepped(conn: Conn, result: Result<(), TlsError>)

  /** One call of `tls_state_machine_advance`: the connection, the caller's buffer and total, the result. */
  datatype StepOutcome = StepOutcome(conn: Conn, readBuf: seq<byte>, totalRead: nat, result: Result<(), TlsError>)

  /** `in_buffer.move_head(n)`. */
  function MoveHead(c: Conn, n: nat): (r: Conn)
    requires Inv(c)
    ensures Inv(r) && r == c.(inBuf := HeadMoved(c.inBuf, n))
  {
    c.(inBuf := HeadMoved(c.inBuf, n))
  }

  /**
   * `sock.read` into the first `k` free bytes of the inbound buffer: the
   * stream delivers what it has, up to `k` bytes.
   */
  function SockRead(c: Conn, k: nat): (r: (Conn, nat))
    requires Inv(c) && k <= FreeSpace(c.inBuf)
    ensures Inv(r.0) && r.1 == Min(k, |c.incoming|)
    ensures r.0 == c.(incoming := c.incoming[r.1..], inBuf := Filled(c.inBuf, c.incoming[..r.1]))
  {
    var n := Min(k, |c.incoming|);
    (c.(incoming := c.incoming[n..], inBuf := Filled(c.inBuf, c.incoming[..n])), n)
  }

  /** `send_record_over_vsock`: write the used outbound region, then empty the buffer. */
  function Send(c: Conn): (r: Conn)
    requires Inv(c)
    ensures Inv(r) && r.written == c.written + Used(c.outBuf) && Used(r.outBuf) == []
    ensures r == c.(written := c.written + Used(c.outBuf), outBuf := Reset(c.outBuf))
  {
    c.(written := c.written + Used(c.outBuf), outBuf := Reset(c.outBuf))
  }

  /** Place a record produced by the engine in the outbound free region and commit it. */
  function Commit(c: Conn, rec: seq<byte>): (r: Conn)
    requires Inv(c) && |rec| <= FreeSpace(c.outBuf)
    ensures Inv(r) && Used(r.outBuf) == Used(c.outBuf) + rec
    ensures r == c.(outBuf := Advanced(Filled(c.outBuf, rec), |rec|).buffer)
  {
    c.(outBuf := Advanced(Filled(c.outBuf, rec), |rec|).buffer)
  }

  /** `encode` into a free region of `free` bytes: a record that does not fit is refused. */
  function Encoded(free: nat, encoded: Result<seq<byte>, EncodeFailure>): (r: Result<seq<byte>, TlsError>)
    ensures r.Ok? <==> encoded.Ok? && |encoded.value| <= free
    ensures r.Ok? ==> r.value == encoded.value
    ensures r.Err? ==> r.error == EncodeError
  {
    match encoded
    case Err(f) => Err(FromEncodeFailure(f))
    case Ok(rec) =>
      if |rec| > free then Err(FromEncodeFailure(EncodeInsufficientSize(|rec|))) else Ok(rec)
  }

  /** `encrypt` / `queue_close_notify` into a free region of `free` bytes. */
  function Encrypted(free: nat, encrypted: Result<seq<byte>, EncryptFailure>): (r: Result<seq<byte>, TlsError>)
    ensures r.Ok? <==> encrypted.Ok? && |encrypted.value| <= free
    ensures r.Ok? ==> r.value == encrypted.value
    ensures r.Err? ==> r.error == EncryptError
  {
    match encrypted
    case Err(f) => Err(FromEncryptFailure(f))
    case Ok(rec) =>
      if |rec| > free then Err(FromEncryptFailure(EncryptInsufficientSize(|rec|))) else Ok(rec)
  }

  /** The first phase of `recv_record_over_vsock`: the header's announced length, or the failure. */
  datatype HeaderRead = HeaderRead(conn: Conn, length: Result<nat, TlsError>)

  /**
   * Reserve 5 bytes, read exactly 5, take the length from the header just
   * read, and commit the header.
   */
  function RecvHeader(c: Conn): (h: HeaderRead)
    requires Inv(c)
    ensures Inv(h.conn)
    ensures h.conn.engine == c.engine && h.conn.written == c.written
    ensures h.conn.outBuf == c.outBuf && h.conn.status == c.status
    ensures h.length.Err? ==> h.length.error == BufferTooSmall || h.length.error == IncompleteRead
  {
    var o := SpaceEnsured(c.inBuf, HEADER_LEN);
    var c1 := c.(inBuf := o.buffer);
    if o.result.Err? then HeaderRead(c1, Err(BufferTooSmall))
    else
      var (c2, n) := SockRead(c1, HEADER_LEN);
      if n != HEADER_LEN then HeaderRead(c2, Err(IncompleteRead))
      else
        var len := RecordLength(c2.inBuf.bytes[c2.inBuf.tail..c2.inBuf.tail + HEADER_LEN]);
        HeaderRead(c2.(inBuf := Advanced(c2.inBuf, HEADER_LEN).buffer), Ok(len))
  }

  /** The second phase: reserve `len` bytes, read exactly `len`, and commit them. */
  function RecvPayload(c: Conn, len: nat): (s: Stepped)
    requires Inv(c)
    ensures Inv(s.conn)
    ensures s.conn.engine == c.engine && s.conn.written == c.written
    ensures s.conn.outBuf == c.outBuf && s.conn.status == c.status
    ensures s.result.Err? ==> s.result.error == BufferTooSmall || s.result.error == IncompleteRead
  {
    var o := SpaceEnsured(c.inBuf, len);
    var c1 := c.(inBuf := o.buffer);
    if o.result.Err? then Stepped(c1, Err(BufferTooSmall))
    else
      var (c2, m) := SockRead(c1, len);
      if m != len then Stepped(c2, Err(IncompleteRead))
      else Stepped(c2.(inBuf := Advanced(c2.inBuf, len).buffer), Ok(()))
  }

  /** `recv_record_over_vsock`: a header, then the payload it announces. */
  function Recv(c: Conn): (s: Stepped)
    requires Inv(c)
    ensures Inv(s.conn)
    ensures s.conn.engine == c.engine && s.conn.written == c.written
    ensures s.conn.outBuf == c.outBuf && s.conn.status == c.status
    ensures s.result.Err? ==> s.result.error == BufferTooSmall || s.result.error == IncompleteRead
  {
    var h := RecvHeader(c);
    if h.length.Err? then Stepped(h.conn, Err(h.length.error))
    else RecvPayload(h.conn, h.length.value)
  }

  /** The step leaves the caller's buffer and total as they were. */
  function Unread(c: Conn, readBuf: seq<byte>, totalRead: nat, result: Result<(), TlsError>): StepOutcome {
    StepOutcome(c, readBuf, totalRead, result)
  }

  /**
   * The `TransmitTlsData` arm: send what is queued, discard the consumed
   * input, and note the handshake complete when the engine says it is no
   * longer handshaking.
   */
  function Transmitted(c: Conn, discard: nat, handshakingAfter: bool): (r: Conn)
    requires Inv(c)
    ensures Inv(r) && r.engine == c.engine && r.written == c.written + Used(c.outBuf)
    ensures r.status == if handshakingAfter then c.status else c.status.(handshakeComplete := true)
  {
    var c1 := MoveHead(Send(c), discard);
    if handshakingAfter then c1 else c1.(status := c1.status.(handshakeComplete := true))
  }

  /** The arms of the three handshake states. */
  function HandshakeStep(c: Conn, discard: nat, action: TlsAction, state: ConnectionState): (s: Stepped)
    requires Inv(c) && (state.EncodeTlsData? || state.TransmitTlsData? || state.BlockedHandshake?)
    ensures Inv(s.conn) && s.conn.engine == c.engine
  {
    if !action.Handshake? then Stepped(c, Err(UnexpectedState))
    else
      match state
      case EncodeTlsData(encoded) =>
        (match Encoded(FreeSpace(c.outBuf), encoded)
         case Err(e) => Stepped(c, Err(e))
         case Ok(rec) => Stepped(MoveHead(Commit(c, rec), discard), Ok(())))
      case TransmitTlsData(handshakingAfter) =>
        Stepped(Transmitted(c, discard, handshakingAfter), Ok(()))
      case BlockedHandshake =>
        Recv(MoveHead(c, discard))
  }

  /** The `WriteTraffic` arm. */
  function WriteTrafficStep(c: Conn, discard: nat, action: TlsAction,
                            encrypt: seq<byte> -> Result<seq<byte>, EncryptFailure>,
                            closeNotify: Result<seq<byte>, EncryptFailure>): (s: Stepped)
    requires Inv(c)
    ensures Inv(s.conn) && s.conn.engine == c.engine
  {
    if action.Handshake? then Stepped(c, Err(UnexpectedState))
    else if action.WriteRecord? then
      match Encrypted(FreeSpace(c.outBuf), encrypt(action.buffer))
      case Err(e) => Stepped(c, Err(e))
      case Ok(rec) =>
        var c1 := Send(Commit(c, rec));
        Stepped(MoveHead(c1.(status := c1.status.(requestSent := true)), discard), Ok(()))
    else if action.CloseConnection? && !c.status.ourSideClosed then
      match Encrypted(FreeSpace(c.outBuf), closeNotify)
      case Err(e) => Stepped(c, Err(e))
      case Ok(rec) =>
        var c1 := Send(Commit(c, rec));
        Stepped(MoveHead(c1.(status := c1.status.(ourSideClosed := true)), discard), Ok(()))
    else
      Recv(MoveHead(c, discard))
  }

  /** The `ReadTraffic` arm. */
  function ReadTrafficStep(c: Conn, discard: nat, action: TlsAction,
                           next: Option<Result<AppDataRecord, RustlsError>>,
                           readBuf: seq<byte>, totalRead: nat): (s: StepOutcome)
    requires Inv(c)
    ensures Inv(s.conn) && s.conn.engine == c.engine && |s.readBuf| == |readBuf|
  {
    if !action.ReadRecord? then Unread(c, readBuf, totalRead, Err(UnexpectedState))
    else
      match next
      case None => Unread(c, readBuf, totalRead, Err(TlsError.GenericError))
      case Some(Err(e)) => Unread(c, readBuf, totalRead, Err(FromRustls(e)))
      case Some(Ok(rec)) =>
        var toCopy := Min(|readBuf|, |rec.payload|);
        var c1 := MoveHead(c, discard + rec.discard);
        StepOutcome(c1.(status := c1.status.(receivedResponse := true)),
                    rec.payload[..toCopy] + readBuf[toCopy..], totalRead + toCopy, Ok(()))
  }

  /** One call of `tls_state_machine_advance(action)`, consuming one engine answer. */
  function Advance(c: Conn, action: TlsAction, readBuf: seq<byte>, totalRead: nat): (s: StepOutcome)
    requires Inv(c) && |c.engine| > 0
    ensures Inv(s.conn) && s.conn.engine == c.engine[1..] && |s.readBuf| == |readBuf|
  {
    var st := c.engine[0];
    var c0 := c.(engine := c.engine[1..]);
    match st.state
    case Err(e) => Unread(c0, readBuf, totalRead, Err(FromRustls(e)))
    case Ok(EncodeTlsData(_)) =>
      var s := HandshakeStep(c0, st.discard, action, st.state.value);
      Unread(s.conn, readBuf, totalRead, s.result)
    case Ok(TransmitTlsData(_)) =>
      var s := HandshakeStep(c0, st.discard, action, st.state.value);
      Unread(s.conn, readBuf, totalRead, s.result)
    case Ok(BlockedHandshake) =>
      var s := HandshakeStep(c0, st.discard, action, st.state.value);
      Unread(s.conn, readBuf, totalRead, s.result)
    case Ok(WriteTraffic(encrypt, closeNotify)) =>
      var s := WriteTrafficStep(c0, st.discard, action, encrypt, closeNotify);
      Unread(s.conn, readBuf, totalRead, s.result)
    case Ok(ReadTraffic(next)) =>
      ReadTrafficStep(c0, st.discard, action, next, readBuf, totalRead)
    case Ok(PeerClosed) =>
      var c1 := MoveHead(c0, st.discard);
      Unread(c1.(status := c1.status.(peerClosed := true)), readBuf, totalRead, Ok(()))
    case Ok(Closed) =>
      Unread(c0.(status := c0.status.(connectionClosed := true)), readBuf, totalRead, Ok(()))
    case Ok(OtherState) =>
      Unread(c0, readBuf, totalRead, Err(UnexpectedState))
  }

  /**
   * How a loop over the engine ends: it returns, or the engine's answers run
   * out while the loop would still step (the source would keep stepping).
   */
  datatype Exit<T> = Returned(result: Result<T, TlsError>) | Stalled

  datatype Run = Run(conn: Conn, exit: Exit<()>)

  datatype ReadRun = ReadRun(conn: Conn, readBuf: seq<byte>, exit: Exit<nat>)

  /** `complete_handshake`: step with `Handshake` until the handshake completes or the connection closes. */
  function HandshakeRun(c: Conn): (r: Run)
    requires Inv(c)
    ensures Inv(r.conn)
    decreases |c.engine|
  {
    if c.status.handshakeComplete || c.status.connectionClosed then Run(c, Returned(Ok(())))
    else if |c.engine| == 0 then Run(c, Stalled)
    else
      var s := Advance(c, Handshake, [], 0);
      if s.result.Err? then Run(s.conn, Returned(Err(s.result.error)))
      else HandshakeRun(s.conn)
  }

  /** The loop of `read_tls`: step with `ReadRecord` until a record is read or either side closes. */
  function ReadLoop(c: Conn, readBuf: seq<byte>, totalRead: nat): (r: ReadRun)
    requires Inv(c)
    ensures Inv(r.conn) && |r.readBuf| == |readBuf|
    decreases |c.engine|
  {
    if c.status.receivedResponse || c.status.connectionClosed || c.status.peerClosed then
      ReadRun(c, readBuf, Returned(Ok(totalRead)))
    else if |c.engine| == 0 then ReadRun(c, readBuf, Stalled)
    else
      var s := Advance(c, ReadRecord, readBuf, totalRead);
      if s.result.Err? then ReadRun(s.conn, s.readBuf, Returned(Err(s.result.error)))
      else ReadLoop(s.conn, s.readBuf, s.totalRead)
  }

  /** `read_tls(buf)`: nothing happens once either side has closed. */
  function ReadTlsRun(c: Conn, readBuf: seq<byte>): (r: ReadRun)
    requires Inv(c)
    ensures Inv(r.conn) && |r.readBuf| == |readBuf|
  {
    if c.status.connectionClosed || c.status.peerClosed then ReadRun(c, readBuf, Returned(Ok(0)))
    else ReadLoop(c.(status := c.status.(receivedResponse := false)), readBuf, 0)
  }

  /** `write_tls(data)`: one step with `WriteRecord(data)`, then a check of `request_sent`. */
  function WriteTlsRun(c: Conn, data: seq<byte>): (r: Run)
    requires Inv(c)
    ensures Inv(r.conn)
  {
    if c.status.connectionClosed then Run(c, Returned(Err(ConnectionClosed)))
    else if |c.engine| == 0 then Run(c, Stalled)
    else
      var s := Advance(c, WriteRecord(data), [], 0);
      if s.result.Err? then Run(s.conn, Returned(Err(s.result.error)))
      else if !s.conn.status.requestSent then Run(s.conn, Returned(Err(TlsError.GenericError)))
      else Run(s.conn, Returned(Ok(())))
  }

  /** `close_tls`: step with `CloseConnection` until the connection is closed. */
  function CloseRun(c: Conn): (r: Run)
    requires Inv(c)
    ensures Inv(r.conn)
    decreases |c.engine|
  {
    if c.status.connectionClosed then Run(c, Returned(Ok(())))
    else if |c.engine| == 0 then Run(c, Stalled)
    else
      var s := Advance(c, CloseConnection, [], 0);
      if s.result.Err? then Run(s.conn, Returned(Err(s.result.error)))
      else CloseRun(s.conn)
  }
}
