/**
 * Properties of the connection specification: record-receive accounting,
 * the intent cross-check, the status flags and what the loops guarantee.
 */
module ConnectionProperties {
  import opened Base
  import opened Constant
  import opened Error
  import opened Buffer
  import opened ConnectionSpec

  /** The length field of the header at the front of the stream. */
  function AnnouncedLength(incoming: seq<byte>): (n: nat)
    requires |incoming| >= HEADER_LEN
    ensures n < 0x1_0000
  {
    RecordLength(incoming[..HEADER_LEN])
  }

  /**
   * The header phase succeeds exactly when the stream holds 5 bytes and the
   * compacted buffer has room for them; it then commits exactly those bytes
   * and reports the length they announce.
   */
  lemma HeaderAccounting(c: Conn)
    requires Inv(c)
    ensures RecvHeader(c).length.Ok? <==> |c.incoming| >= HEADER_LEN && IN_BUF_SIZE - |Used(c.inBuf)| >= HEADER_LEN
    ensures RecvHeader(c).length.Ok? ==>
      RecvHeader(c).length.value == AnnouncedLength(c.incoming) &&
      Used(RecvHeader(c).conn.inBuf) == Used(c.inBuf) + c.incoming[..HEADER_LEN] &&
      RecvHeader(c).conn.incoming == c.incoming[HEADER_LEN..]
  {
    var o := SpaceEnsured(c.inBuf, HEADER_LEN);
    if o.result.Ok? && |c.incoming| >= HEADER_LEN {
      var (c2, n) := SockRead(c.(inBuf := o.buffer), HEADER_LEN);
      assert c2.inBuf.bytes[c2.inBuf.tail..c2.inBuf.tail + HEADER_LEN] == c.incoming[..HEADER_LEN];
    }
  }

  /**
   * The payload phase succeeds exactly when the stream holds `len` bytes and
   * the compacted buffer has room for them; it then commits exactly those bytes.
   */
  lemma PayloadAccounting(c: Conn, len: nat)
    requires Inv(c)
    ensures RecvPayload(c, len).result.Ok? <==> |c.incoming| >= len && IN_BUF_SIZE - |Used(c.inBuf)| >= len
    ensures RecvPayload(c, len).result.Ok? ==>
      Used(RecvPayload(c, len).conn.inBuf) == Used(c.inBuf) + c.incoming[..len] &&
      RecvPayload(c, len).conn.incoming == c.incoming[len..]
  {
  }

  /**
   * `recv_record_over_vsock` succeeds exactly when the stream holds a whole
   * record and the inbound buffer, once compacted, has room for it; the used
   * region then grows by exactly that record, header included.
   */
  lemma RecvAccounting(c: Conn)
    requires Inv(c)
    ensures Recv(c).result.Ok? <==>
      |c.incoming| >= HEADER_LEN &&
      |c.incoming| >= HEADER_LEN + AnnouncedLength(c.incoming) &&
      IN_BUF_SIZE - |Used(c.inBuf)| >= HEADER_LEN + AnnouncedLength(c.incoming)
    ensures Recv(c).result.Ok? ==>
      var n := HEADER_LEN + AnnouncedLength(c.incoming);
      Used(Recv(c).conn.inBuf) == Used(c.inBuf) + c.incoming[..n] &&
      Recv(c).conn.incoming == c.incoming[n..]
  {
    HeaderAccounting(c);
    var h := RecvHeader(c);
    if h.length.Ok? {
      var len := h.length.value;
      assert Recv(c) == RecvPayload(h.conn, len);
      PayloadAccounting(h.conn, len);
      if |c.incoming| >= HEADER_LEN + len {
        ReadsCompose(Used(c.inBuf), c.incoming, len);
      }
    }
  }

  /**
   * Two reads from a stream, of 5 and then `len` bytes, append to the used
   * region and drop from the stream what one read of `5 + len` bytes would.
   */
  lemma ReadsCompose(used: seq<byte>, incoming: seq<byte>, len: nat)
    requires |incoming| >= HEADER_LEN + len
    ensures (used + incoming[..HEADER_LEN]) + incoming[HEADER_LEN..][..len] == used + incoming[..HEADER_LEN + len]
    ensures incoming[HEADER_LEN..][len..] == incoming[HEADER_LEN + len..]
  {
    assert incoming[..HEADER_LEN + len] == incoming[..HEADER_LEN] + incoming[HEADER_LEN..][..len];
  }

  /** An empty inbound buffer takes a record announcing `L` payload bytes exactly when `L <= 16401`. */
  lemma InboundRecordFits(c: Conn)
    requires Inv(c) && Used(c.inBuf) == []
    requires |c.incoming| >= HEADER_LEN && |c.incoming| >= HEADER_LEN + AnnouncedLength(c.incoming)
    ensures Recv(c).result.Ok? <==> AnnouncedLength(c.incoming) <= 16401
  {
    RecvAccounting(c);
  }

  /**
   * A record of the largest ciphertext size section 5.2 of RFC 8446 allows,
   * 2^14 + 256 bytes, does not fit: records of 16402 to 16640 bytes are
   * refused with `BufferTooSmall` however empty the buffer.
   */
  lemma LargestCiphertextRefused(c: Conn)
    requires Inv(c) && |c.incoming| >= HEADER_LEN
    requires 16401 < AnnouncedLength(c.incoming) <= MAX_CIPHERTEXT
    ensures Recv(c).result == Err(BufferTooSmall)
  {
    HeaderAccounting(c);
    var h := RecvHeader(c);
    if h.length.Ok? {
      PayloadAccounting(h.conn, h.length.value);
    }
  }

  /** The engine state does not fit the caller's intent. */
  predicate Mismatch(st: ConnectionState, action: TlsAction) {
    ((st.EncodeTlsData? || st.TransmitTlsData? || st.BlockedHandshake?) && !action.Handshake?)
    || (st.WriteTraffic? && action.Handshake?)
    || (st.ReadTraffic? && !action.ReadRecord?)
    || st.OtherState?
  }

  /**
   * The intent cross-check: a step fails with `UnexpectedState` exactly when
   * the engine's state does not fit the action, and such a step changes
   * nothing but consume the engine's answer.
   */
  lemma IntentCrossCheck(c: Conn, action: TlsAction, readBuf: seq<byte>, totalRead: nat)
    requires Inv(c) && |c.engine| > 0
    ensures var s := Advance(c, action, readBuf, totalRead);
      s.result == Err(UnexpectedState) <==> c.engine[0].state.Ok? && Mismatch(c.engine[0].state.value, action)
    ensures c.engine[0].state.Ok? && Mismatch(c.engine[0].state.value, action) ==>
      Advance(c, action, readBuf, totalRead) ==
        StepOutcome(c.(engine := c.engine[1..]), readBuf, totalRead, Err(UnexpectedState))
  {
    var s := Advance(c, action, readBuf, totalRead);
    var c0 := c.(engine := c.engine[1..]);
    match c.engine[0].state
    case Err(e) =>
    case Ok(st) =>
      if st.WriteTraffic? && !action.Handshake? {
        if action.WriteRecord? {
        } else if action.CloseConnection? && !c0.status.ourSideClosed {
        } else {
          assert s.result == Recv(MoveHead(c0, c.engine[0].discard)).result;
        }
      }
  }

  /**
   * In `ReadTraffic` under `ReadRecord`: exactly `min(|buf|, |payload|)` bytes
   * land at the front of the caller's buffer, the rest of it is untouched,
   * the total grows by that count and the inbound buffer drops the step's
   * and the record's discards.
   */
  lemma ReadTrafficAccounting(c: Conn, readBuf: seq<byte>, totalRead: nat, discard: nat, rec: AppDataRecord)
    requires Inv(c) && |c.engine| > 0
    requires c.engine[0] == UnbufferedStatus(discard, Ok(ReadTraffic(Some(Ok(rec)))))
    ensures var s := Advance(c, ReadRecord, readBuf, totalRead);
      var k := Min(|readBuf|, |rec.payload|);
      s.result.Ok? && s.totalRead == totalRead + k &&
      s.readBuf[..k] == rec.payload[..k] && s.readBuf[k..] == readBuf[k..] &&
      Used(s.conn.inBuf) == Used(c.inBuf)[Min(discard + rec.discard, |Used(c.inBuf)|)..] &&
      s.conn.status == c.status.(receivedResponse := true) &&
      s.conn.written == c.written && s.conn.incoming == c.incoming && s.conn.outBuf == c.outBuf
  {
  }

  /** In `ReadTraffic` without a record, the step fails with `GenericError` and reads nothing. */
  lemma ReadTrafficWithoutRecord(c: Conn, readBuf: seq<byte>, totalRead: nat, discard: nat)
    requires Inv(c) && |c.engine| > 0
    requires c.engine[0] == UnbufferedStatus(discard, Ok(ReadTraffic(None)))
    ensures Advance(c, ReadRecord, readBuf, totalRead) ==
      StepOutcome(c.(engine := c.engine[1..]), readBuf, totalRead, Err(TlsError.GenericError))
  {
  }

  /** No flag other than `receivedResponse` ever goes from true to false. */
  predicate FlagsKept(d: ConnectionDetails, d': ConnectionDetails) {
    (d.handshakeComplete ==> d'.handshakeComplete) &&
    (d.requestSent ==> d'.requestSent) &&
    (d.peerClosed ==> d'.peerClosed) &&
    (d.ourSideClosed ==> d'.ourSideClosed) &&
    (d.connectionClosed ==> d'.connectionClosed)
  }

  /** A step only ever sets flags, `receivedResponse` included. */
  lemma AdvanceKeepsFlags(c: Conn, action: TlsAction, readBuf: seq<byte>, totalRead: nat)
    requires Inv(c) && |c.engine| > 0
    ensures var d' := Advance(c, action, readBuf, totalRead).conn.status;
      FlagsKept(c.status, d') && (c.status.receivedResponse ==> d'.receivedResponse)
  {
    var st := c.engine[0];
    var c0 := c.(engine := c.engine[1..]);
    match st.state
    case Err(_) =>
    case Ok(EncodeTlsData(_)) => HandshakeStepKeepsFlags(c0, st.discard, action, st.state.value);
    case Ok(TransmitTlsData(_)) => HandshakeStepKeepsFlags(c0, st.discard, action, st.state.value);
    case Ok(BlockedHandshake) => HandshakeStepKeepsFlags(c0, st.discard, action, st.state.value);
    case Ok(WriteTraffic(encrypt, closeNotify)) => WriteTrafficStepKeepsFlags(c0, st.discard, action, encrypt, closeNotify);
    case Ok(ReadTraffic(next)) =>
    case Ok(PeerClosed) =>
    case Ok(Closed) =>
    case Ok(OtherState) =>
  }

  lemma HandshakeStepKeepsFlags(c: Conn, discard: nat, action: TlsAction, state: ConnectionState)
    requires Inv(c) && (state.EncodeTlsData? || state.TransmitTlsData? || state.BlockedHandshake?)
    ensures var d' := HandshakeStep(c, discard, action, state).conn.status;
      FlagsKept(c.status, d') && (c.status.receivedResponse ==> d'.receivedResponse)
  {
  }

  lemma WriteTrafficStepKeepsFlags(c: Conn, discard: nat, action: TlsAction,
                                   encrypt: seq<byte> -> Result<seq<byte>, EncryptFailure>,
                                   closeNotify: Result<seq<byte>, EncryptFailure>)
    requires Inv(c)
    ensures var d' := WriteTrafficStep(c, discard, action, encrypt, closeNotify).conn.status;
      FlagsKept(c.status, d') && (c.status.receivedResponse ==> d'.receivedResponse)
  {
  }

  lemma {:induction false} HandshakeRunKeepsFlags(c: Conn)
    requires Inv(c)
    ensures FlagsKept(c.status, HandshakeRun(c).conn.status)
    decreases |c.engine|
  {
    if !(c.status.handshakeComplete || c.status.connectionClosed) && |c.engine| > 0 {
      var s := Advance(c, Handshake, [], 0);
      AdvanceKeepsFlags(c, Handshake, [], 0);
      if s.result.Ok? {
        HandshakeRunKeepsFlags(s.conn);
      }
    }
  }

  lemma {:induction false} ReadLoopKeepsFlags(c: Conn, readBuf: seq<byte>, totalRead: nat)
    requires Inv(c)
    ensures FlagsKept(c.status, ReadLoop(c, readBuf, totalRead).conn.status)
    decreases |c.engine|
  {
    if !(c.status.receivedResponse || c.status.connectionClosed || c.status.peerClosed) && |c.engine| > 0 {
      var s := Advance(c, ReadRecord, readBuf, totalRead);
      AdvanceKeepsFlags(c, ReadRecord, readBuf, totalRead);
      if s.result.Ok? {
        ReadLoopKeepsFlags(s.conn, s.readBuf, s.totalRead);
      }
    }
  }

  /** `read_tls` clears `receivedResponse` and no other flag. */
  lemma ReadTlsRunKeepsFlags(c: Conn, readBuf: seq<byte>)
    requires Inv(c)
    ensures FlagsKept(c.status, ReadTlsRun(c, readBuf).conn.status)
  {
    if !(c.status.connectionClosed || c.status.peerClosed) {
      ReadLoopKeepsFlags(c.(status := c.status.(receivedResponse := false)), readBuf, 0);
    }
  }

  lemma {:induction false} CloseRunKeepsFlags(c: Conn)
    requires Inv(c)
    ensures FlagsKept(c.status, CloseRun(c).conn.status)
    decreases |c.engine|
  {
    if !c.status.connectionClosed && |c.engine| > 0 {
      var s := Advance(c, CloseConnection, [], 0);
      AdvanceKeepsFlags(c, CloseConnection, [], 0);
      if s.result.Ok? {
        CloseRunKeepsFlags(s.conn);
      }
    }
  }

  /**
   * `request_sent` is set only by a `WriteRecord` step in `WriteTraffic`
   * whose encrypted record was written to the stream.
   */
  lemma RequestSentAfterWrite(c: Conn, action: TlsAction, readBuf: seq<byte>, totalRead: nat)
    requires Inv(c) && |c.engine| > 0 && !c.status.requestSent
    ensures var s := Advance(c, action, readBuf, totalRead);
      s.conn.status.requestSent ==>
        s.result.Ok? && action.WriteRecord? && c.engine[0].state.Ok? &&
        c.engine[0].state.value.WriteTraffic? &&
        c.engine[0].state.value.encrypt(action.buffer).Ok? &&
        s.conn.written == c.written + Used(c.outBuf) + c.engine[0].state.value.encrypt(action.buffer).value
  {
    var st := c.engine[0];
    var c0 := c.(engine := c.engine[1..]);
    match st.state {
      case Ok(WriteTraffic(enc, cn)) =>
        assert Advance(c, action, readBuf, totalRead).conn == WriteTrafficStep(c0, st.discard, action, enc, cn).conn;
        assert Advance(c, action, readBuf, totalRead).result == WriteTrafficStep(c0, st.discard, action, enc, cn).result;
      case Ok(ReadTraffic(next)) =>
        assert Advance(c, action, readBuf, totalRead).conn.status.requestSent ==
          ReadTrafficStep(c0, st.discard, action, next, readBuf, totalRead).conn.status.requestSent;
      case _ =>
    }
  }

  /** `our_side_closed` is set only once the close_notify record was written to the stream. */
  lemma OurSideClosedAfterNotify(c: Conn, action: TlsAction, readBuf: seq<byte>, totalRead: nat)
    requires Inv(c) && |c.engine| > 0 && !c.status.ourSideClosed
    ensures var s := Advance(c, action, readBuf, totalRead);
      s.conn.status.ourSideClosed ==>
        s.result.Ok? && action.CloseConnection? && c.engine[0].state.Ok? &&
        c.engine[0].state.value.WriteTraffic? &&
        c.engine[0].state.value.closeNotify.Ok? &&
        s.conn.written == c.written + Used(c.outBuf) + c.engine[0].state.value.closeNotify.value
  {
    var st := c.engine[0];
    var c0 := c.(engine := c.engine[1..]);
    match st.state {
      case Ok(WriteTraffic(enc, cn)) =>
        assert Advance(c, action, readBuf, totalRead).conn == WriteTrafficStep(c0, st.discard, action, enc, cn).conn;
        assert Advance(c, action, readBuf, totalRead).result == WriteTrafficStep(c0, st.discard, action, enc, cn).result;
      case Ok(ReadTraffic(next)) =>
        assert Advance(c, action, readBuf, totalRead).conn.status.ourSideClosed ==
          ReadTrafficStep(c0, st.discard, action, next, readBuf, totalRead).conn.status.ourSideClosed;
      case _ =>
    }
  }

  /**
   * `handshake_complete` is set only by a transmit step under `Handshake`
   * after which the engine no longer reports a handshake in progress.
   */
  lemma HandshakeCompleteAfterTransmit(c: Conn, action: TlsAction, readBuf: seq<byte>, totalRead: nat)
    requires Inv(c) && |c.engine| > 0 && !c.status.handshakeComplete
    ensures var s := Advance(c, action, readBuf, totalRead);
      s.conn.status.handshakeComplete ==>
        s.result.Ok? && action.Handshake? &&
        c.engine[0].state == Ok(TransmitTlsData(false)) &&
        s.conn.written == c.written + Used(c.outBuf)
  {
    var st := c.engine[0];
    var c0 := c.(engine := c.engine[1..]);
    match st.state {
      case Ok(TransmitTlsData(h)) =>
      case Ok(WriteTraffic(enc, cn)) =>
        assert Advance(c, action, readBuf, totalRead).conn.status.handshakeComplete ==
          WriteTrafficStep(c0, st.discard, action, enc, cn).conn.status.handshakeComplete;
      case Ok(ReadTraffic(next)) =>
        assert Advance(c, action, readBuf, totalRead).conn.status.handshakeComplete ==
          ReadTrafficStep(c0, st.discard, action, next, readBuf, totalRead).conn.status.handshakeComplete;
      case _ =>
    }
  }

  /** `complete_handshake` returns `Ok` only with the handshake complete or the connection closed. */
  lemma {:induction false} HandshakeRunOkMeansDone(c: Conn)
    requires Inv(c)
    ensures HandshakeRun(c).exit == Returned(Ok(())) ==>
      HandshakeRun(c).conn.status.handshakeComplete || HandshakeRun(c).conn.status.connectionClosed
    decreases |c.engine|
  {
    if !(c.status.handshakeComplete || c.status.connectionClosed) && |c.engine| > 0 {
      var s := Advance(c, Handshake, [], 0);
      if s.result.Ok? {
        HandshakeRunOkMeansDone(s.conn);
      }
    }
  }

  /** Once our close_notify went out, a `CloseConnection` step writes nothing more. */
  lemma CloseStepAfterNotifyWritesNothing(c: Conn)
    requires Inv(c) && |c.engine| > 0 && c.status.ourSideClosed
    ensures var s := Advance(c, CloseConnection, [], 0);
      s.conn.written == c.written && s.conn.status.ourSideClosed
  {
  }

  /** close_notify is sent at most once: after it, `close_tls` writes nothing to the stream. */
  lemma {:induction false} CloseRunAfterNotifyWritesNothing(c: Conn)
    requires Inv(c) && c.status.ourSideClosed
    ensures CloseRun(c).conn.written == c.written
    decreases |c.engine|
  {
    if !c.status.connectionClosed && |c.engine| > 0 {
      var s := Advance(c, CloseConnection, [], 0);
      CloseStepAfterNotifyWritesNothing(c);
      if s.result.Ok? {
        CloseRunAfterNotifyWritesNothing(s.conn);
      }
    }
  }

  /**
   * `read_tls` reports at most the caller's buffer size: only the step that
   * sets `received_response` adds to the total, and the loop stops there.
   */
  lemma {:induction false} ReadLoopTotal(c: Conn, readBuf: seq<byte>, totalRead: nat)
    requires Inv(c)
    ensures ReadLoop(c, readBuf, totalRead).exit.Returned? && ReadLoop(c, readBuf, totalRead).exit.result.Ok? ==>
      totalRead <= ReadLoop(c, readBuf, totalRead).exit.result.value <= totalRead + |readBuf|
    decreases |c.engine|
  {
    if !(c.status.receivedResponse || c.status.connectionClosed || c.status.peerClosed) && |c.engine| > 0 {
      var s := Advance(c, ReadRecord, readBuf, totalRead);
      if s.result.Ok? {
        ReadLoopTotal(s.conn, s.readBuf, s.totalRead);
        if !s.conn.status.receivedResponse {
          assert s.totalRead == totalRead && s.readBuf == readBuf;
        }
      }
    }
  }

  lemma ReadTlsTotal(c: Conn, readBuf: seq<byte>)
    requires Inv(c)
    ensures ReadTlsRun(c, readBuf).exit.Returned? && ReadTlsRun(c, readBuf).exit.result.Ok? ==>
      ReadTlsRun(c, readBuf).exit.result.value <= |readBuf|
  {
    if !(c.status.connectionClosed || c.status.peerClosed) {
      ReadLoopTotal(c.(status := c.status.(receivedResponse := false)), readBuf, 0);
    }
  }

  /**
   * Once a request has been sent, `write_tls` reports success for a step
   * that wrote nothing, such as the peer's close arriving instead.
   */
  lemma WriteSucceedsWithoutSending(c: Conn, data: seq<byte>, discard: nat)
    requires Inv(c) && c.status.requestSent && !c.status.connectionClosed
    requires |c.engine| > 0 && c.engine[0] == UnbufferedStatus(discard, Ok(ConnectionState.PeerClosed))
    ensures WriteTlsRun(c, data).exit == Returned(Ok(())) && WriteTlsRun(c, data).conn.written == c.written
  {
  }

  /** `read_tls` on a connection either side has closed reads nothing and changes nothing. */
  lemma ReadTlsWhenClosed(c: Conn, readBuf: seq<byte>)
    requires Inv(c) && (c.status.connectionClosed || c.status.peerClosed)
    ensures ReadTlsRun(c, readBuf) == ReadRun(c, readBuf, Returned(Ok(0)))
  {
  }

  /**
   * The read loop returns success only once a record was received or either
   * side closed.
   */
  lemma {:induction false} ReadLoopOkMeansDone(c: Conn, readBuf: seq<byte>, totalRead: nat)
    requires Inv(c)
    ensures var r := ReadLoop(c, readBuf, totalRead);
      r.exit.Returned? && r.exit.result.Ok? ==>
        r.conn.status.receivedResponse || r.conn.status.connectionClosed || r.conn.status.peerClosed
    decreases |c.engine|
  {
    if !(c.status.receivedResponse || c.status.connectionClosed || c.status.peerClosed) && |c.engine| > 0 {
      var s := Advance(c, ReadRecord, readBuf, totalRead);
      if s.result.Ok? {
        ReadLoopOkMeansDone(s.conn, s.readBuf, s.totalRead);
      }
    }
  }

  /**
   * `write_tls` on a closed connection fails with `ConnectionClosed` and
   * changes nothing; otherwise it takes exactly one step, passes on the
   * step's error, and fails with `GenericError` when the step succeeded
   * without sending the request.
   */
  lemma WriteTlsOutcome(c: Conn, data: seq<byte>)
    requires Inv(c)
    ensures c.status.connectionClosed ==> WriteTlsRun(c, data) == Run(c, Returned(Err(ConnectionClosed)))
    ensures !c.status.connectionClosed && |c.engine| > 0 ==>
      var s := Advance(c, WriteRecord(data), [], 0);
      var r := WriteTlsRun(c, data);
      && r.conn == s.conn && r.conn.engine == c.engine[1..]
      && r.exit.Returned?
      && (r.exit.result.Ok? <==> s.result.Ok? && s.conn.status.requestSent)
      && (s.result.Err? ==> r.exit.result == Err(s.result.error))
      && (s.result.Ok? && !s.conn.status.requestSent ==> r.exit.result == Err(TlsError.GenericError))
  {
  }

  /**
   * A `write_tls` that succeeds on a connection that had not sent its
   * request encrypted the data in a write-traffic step and appended exactly
   * the pending output and that record to what was written.
   */
  lemma WriteTlsSends(c: Conn, data: seq<byte>)
    requires Inv(c) && !c.status.requestSent
    ensures var r := WriteTlsRun(c, data);
      r.exit == Returned(Ok(())) ==>
        && |c.engine| > 0 && c.engine[0].state.Ok? && c.engine[0].state.value.WriteTraffic?
        && c.engine[0].state.value.encrypt(data).Ok?
        && r.conn.written == c.written + Used(c.outBuf) + c.engine[0].state.value.encrypt(data).value
  {
    if !c.status.connectionClosed && |c.engine| > 0 {
      RequestSentAfterWrite(c, WriteRecord(data), [], 0);
    }
  }

  /** The close loop returns success only once the connection is closed. */
  lemma {:induction false} CloseRunOkMeansClosed(c: Conn)
    requires Inv(c)
    ensures CloseRun(c).exit == Returned(Ok(())) ==> CloseRun(c).conn.status.connectionClosed
    decreases |c.engine|
  {
    if !c.status.connectionClosed && |c.engine| > 0 {
      var s := Advance(c, CloseConnection, [], 0);
      if s.result.Ok? {
        CloseRunOkMeansClosed(s.conn);
      }
    }
  }
}
