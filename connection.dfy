/**
 * `TlsConnection` (kernel/src/tls/connection.rs) as a class: the engine's
 * answers, the vsock stream, two `TlsBuffer`s and the status flags, updated
 * in place. Every method is proved to end in the state, and with the result,
 * that the specification in module `ConnectionSpec` gives.
 */
module Connection {
  import opened Base
  import opened Constant
  import opened Error
  import opened Buffer
  import opened ConnectionSpec

  class TlsConnection {
    /** The engine's remaining answers to `process_tls_records`. */
    var engine: seq<UnbufferedStatus>
    /** What the vsock stream has yet to deliver. */
    var incoming: seq<byte>
    /** Everything written to the vsock stream. */
    var written: seq<byte>
    const inBuffer: TlsBuffer
    const outBuffer: TlsBuffer
    var status: ConnectionDetails

    ghost predicate Valid()
      reads this, inBuffer, outBuffer
    {
      inBuffer != outBuffer && inBuffer.buf != outBuffer.buf
      && inBuffer.Valid() && outBuffer.Valid()
      && inBuffer.buf.Length == IN_BUF_SIZE && outBuffer.buf.Length == OUT_BUF_SIZE
    }

    /** The connection as a value. */
    function Abs(): Conn
      reads this, inBuffer, inBuffer.buf, outBuffer, outBuffer.buf
    {
      Conn(engine, incoming, written, inBuffer.View(), outBuffer.View(), status)
    }

    /** `TlsConnection::new`. */
    constructor (engine: seq<UnbufferedStatus>, incoming: seq<byte>)
      ensures Valid() && Abs() == NewConn(engine, incoming)
      ensures fresh(inBuffer) && fresh(inBuffer.buf) && fresh(outBuffer) && fresh(outBuffer.buf)
    {
      this.engine := engine;
      this.incoming := incoming;
      written := [];
      inBuffer := new TlsBuffer(IN_BUF_SIZE);
      outBuffer := new TlsBuffer(OUT_BUF_SIZE);
      status := NewDetails();
    }

    /** `sock.read` into the first `k` free bytes of the inbound buffer. */
    method SockReadIntoInbound(k: nat) returns (n: nat)
      requires Valid() && k <= inBuffer.buf.Length - inBuffer.tail
      modifies this, inBuffer.buf
      ensures Valid() && (Abs(), n) == SockRead(old(Abs()), k)
    {
      n := Min(k, |incoming|);
      inBuffer.FillRemaining(incoming[..n]);
      incoming := incoming[n..];
    }

    /** `send_record_over_vsock`. */
    method SendRecordOverVsock()
      requires Valid()
      modifies this, outBuffer
      ensures Valid() && Abs() == Send(old(Abs()))
    {
      written := written + outBuffer.CurrUsedBuf();
      outBuffer.ResetUsed();
    }

    /** The first phase of `recv_record_over_vsock`: the header. */
    method RecvHeaderOverVsock() returns (len: Result<nat, TlsError>)
      requires Valid()
      modifies this, inBuffer, inBuffer.buf
      ensures Valid() && HeaderRead(Abs(), len) == RecvHeader(old(Abs()))
    {
      var reserved := inBuffer.EnsureSpace(HEADER_LEN);
      if reserved.Err? {
        return Err(reserved.error);
      }
      var slice := inBuffer.MutableSliceFromRemaining(HEADER_LEN);
      assert slice.Ok?;
      var readBytes := SockReadIntoInbound(HEADER_LEN);
      if readBytes != HEADER_LEN {
        return Err(IncompleteRead);
      }
      len := inBuffer.ExtractRecordLenFromCurrentPosition();
      assert len.Ok?;
      var committed := inBuffer.AdvanceUsed(HEADER_LEN);
      assert committed.Ok?;
    }

    /** The second phase of `recv_record_over_vsock`: the payload of `len` bytes. */
    method RecvPayloadOverVsock(len: nat) returns (r: Result<(), TlsError>)
      requires Valid()
      modifies this, inBuffer, inBuffer.buf
      ensures Valid() && Stepped(Abs(), r) == RecvPayload(old(Abs()), len)
    {
      var reserved := inBuffer.EnsureSpace(len);
      if reserved.Err? {
        return Err(reserved.error);
      }
      var slice := inBuffer.MutableSliceFromRemaining(len);
      assert slice.Ok?;
      var readBytes := SockReadIntoInbound(len);
      if readBytes != len {
        return Err(IncompleteRead);
      }
      r := inBuffer.AdvanceUsed(len);
      assert r.Ok?;
    }

    /** `recv_record_over_vsock`. */
    method RecvRecordOverVsock() returns (r: Result<(), TlsError>)
      requires Valid()
      modifies this, inBuffer, inBuffer.buf
      ensures Valid() && Stepped(Abs(), r) == Recv(old(Abs()))
    {
      var len := RecvHeaderOverVsock();
      if len.Err? {
        return Err(len.error);
      }
      r := RecvPayloadOverVsock(len.value);
    }

    /**
     * The engine writes the record it produced into the outbound free region
     * (`remaining_buf_as_mut`), and the buffer commits it (`advance_used`).
     */
    method CommitOutbound(rec: seq<byte>)
      requires Valid() && |rec| <= outBuffer.buf.Length - outBuffer.tail
      modifies outBuffer, outBuffer.buf
      ensures Valid() && Abs() == Commit(old(Abs()), rec)
    {
      outBuffer.FillRemaining(rec);
      var committed := outBuffer.AdvanceUsed(|rec|);
      assert committed.Ok?;
    }

    /** `prepare_handshake_record`. */
    method PrepareHandshakeRecord(encoded: Result<seq<byte>, EncodeFailure>) returns (r: Result<(), TlsError>)
      requires Valid()
      modifies outBuffer, outBuffer.buf
      ensures Valid()
      ensures var e := Encoded(FreeSpace(old(Abs()).outBuf), encoded);
        if e.Err? then r == Err(e.error) && Abs() == old(Abs())
        else r == Ok(()) && Abs() == Commit(old(Abs()), e.value)
    {
      var remaining := outBuffer.RemainingBuf();
      var bytesWritten := Encoded(|remaining|, encoded);
      if bytesWritten.Err? {
        return Err(bytesWritten.error);
      }
      CommitOutbound(bytesWritten.value);
      return Ok(());
    }

    /** `encrypt_data` and `prepare_queue_close_notify`: what the engine encrypted, committed. */
    method EncryptData(encrypted: Result<seq<byte>, EncryptFailure>) returns (r: Result<(), TlsError>)
      requires Valid()
      modifies outBuffer, outBuffer.buf
      ensures Valid()
      ensures var e := Encrypted(FreeSpace(old(Abs()).outBuf), encrypted);
        if e.Err? then r == Err(e.error) && Abs() == old(Abs())
        else r == Ok(()) && Abs() == Commit(old(Abs()), e.value)
    {
      var remaining := outBuffer.RemainingBuf();
      var bytesWritten := Encrypted(|remaining|, encrypted);
      if bytesWritten.Err? {
        return Err(bytesWritten.error);
      }
      CommitOutbound(bytesWritten.value);
      return Ok(());
    }

    /** `in_buffer.move_head(n)`. */
    method MoveInboundHead(n: nat)
      requires Valid()
      modifies inBuffer
      ensures Valid() && Abs() == MoveHead(old(Abs()), n)
    {
      inBuffer.MoveHead(n);
    }

    /** The arms of the three handshake states of `tls_state_machine_advance`. */
    method HandshakeArm(discard: nat, action: TlsAction, state: ConnectionState) returns (r: Result<(), TlsError>)
      requires Valid() && (state.EncodeTlsData? || state.TransmitTlsData? || state.BlockedHandshake?)
      modifies this, inBuffer, inBuffer.buf, outBuffer, outBuffer.buf
      ensures Valid() && Stepped(Abs(), r) == HandshakeStep(old(Abs()), discard, action, state)
    {
      if !action.Handshake? {
        return Err(UnexpectedState);
      }
      match state {
        case EncodeTlsData(encoded) =>
          r := EncodeArm(discard, encoded);
        case TransmitTlsData(handshakingAfter) =>
          TransmitArm(discard, handshakingAfter);
          r := Ok(());
        case BlockedHandshake =>
          MoveInboundHead(discard);
          r := RecvRecordOverVsock();
      }
    }

    /** The `EncodeTlsData` arm: encode the handshake record, then discard consumed input. */
    method EncodeArm(discard: nat, encoded: Result<seq<byte>, EncodeFailure>) returns (r: Result<(), TlsError>)
      requires Valid()
      modifies inBuffer, outBuffer, outBuffer.buf
      ensures Valid() && Stepped(Abs(), r) == HandshakeStep(old(Abs()), discard, Handshake, EncodeTlsData(encoded))
    {
      r := PrepareHandshakeRecord(encoded);
      if r.Err? {
        return;
      }
      MoveInboundHead(discard);
    }

    /** The `TransmitTlsData` arm: send, discard consumed input, and note a finished handshake. */
    method TransmitArm(discard: nat, handshakingAfter: bool)
      requires Valid()
      modifies this, inBuffer, outBuffer
      ensures Valid() && Abs() == Transmitted(old(Abs()), discard, handshakingAfter)
    {
      SendRecordOverVsock();
      MoveInboundHead(discard);
      ghost var moved := Abs();
      if !handshakingAfter {
        status := status.(handshakeComplete := true);
        assert Abs() == moved.(status := moved.status.(handshakeComplete := true));
      }
    }

    /** The `WriteTraffic` arm of `tls_state_machine_advance`. */
    method WriteTrafficArm(discard: nat, action: TlsAction,
                           encrypt: seq<byte> -> Result<seq<byte>, EncryptFailure>,
                           closeNotify: Result<seq<byte>, EncryptFailure>) returns (r: Result<(), TlsError>)
      requires Valid()
      modifies this, inBuffer, inBuffer.buf, outBuffer, outBuffer.buf
      ensures Valid() && Stepped(Abs(), r) == WriteTrafficStep(old(Abs()), discard, action, encrypt, closeNotify)
    {
      if action.Handshake? {
        return Err(UnexpectedState);
      }
      if action.WriteRecord? {
        r := EncryptData(encrypt(action.buffer));
        if r.Err? {
          return;
        }
        SendRecordOverVsock();
        status := status.(requestSent := true);
        MoveInboundHead(discard);
      } else if action.CloseConnection? && !status.ourSideClosed {
        r := EncryptData(closeNotify);
        if r.Err? {
          return;
        }
        SendRecordOverVsock();
        status := status.(ourSideClosed := true);
        MoveInboundHead(discard);
      } else {
        MoveInboundHead(discard);
        r := RecvRecordOverVsock();
      }
    }

    /** The `ReadTraffic` arm: copy what fits of the record's payload to the front of `buf`. */
    method ReadTrafficArm(discard: nat, action: TlsAction, next: Option<Result<AppDataRecord, RustlsError>>,
                          buf: array<byte>, totalRead: nat) returns (r: Result<(), TlsError>, total: nat)
      requires Valid() && buf != inBuffer.buf && buf != outBuffer.buf
      modifies this, inBuffer, buf
      ensures Valid()
      ensures StepOutcome(Abs(), buf[..], total, r) ==
        ReadTrafficStep(old(Abs()), discard, action, next, old(buf[..]), totalRead)
    {
      if !action.ReadRecord? {
        return Err(UnexpectedState), totalRead;
      }
      if next.None? {
        return Err(TlsError.GenericError), totalRead;
      }
      if next.value.Err? {
        return Err(FromRustls(next.value.error)), totalRead;
      }
      var rec := next.value.value;
      var totalDiscard := discard + rec.discard;
      var toCopy := Min(buf.Length, |rec.payload|);
      for i := 0 to toCopy
        invariant Valid() && unchanged(this) && unchanged(inBuffer)
        invariant forall j :: 0 <= j < i ==> buf[j] == rec.payload[j]
        invariant forall j :: i <= j < buf.Length ==> buf[j] == old(buf[j])
      {
        buf[i] := rec.payload[i];
      }
      assert buf[..] == rec.payload[..toCopy] + old(buf[..])[toCopy..];
      MoveInboundHead(totalDiscard);
      status := status.(receivedResponse := true);
      return Ok(()), totalRead + toCopy;
    }

    /** `tls_state_machine_advance(action)`: one engine answer, dispatched against the caller's intent. */
    method TlsStateMachineAdvance(action: TlsAction, buf: array<byte>, totalRead: nat) returns (r: Result<(), TlsError>, total: nat)
      requires Valid() && |engine| > 0 && buf != inBuffer.buf && buf != outBuffer.buf
      modifies this, inBuffer, inBuffer.buf, outBuffer, outBuffer.buf, buf
      ensures Valid()
      ensures StepOutcome(Abs(), buf[..], total, r) == Advance(old(Abs()), action, old(buf[..]), totalRead)
    {
      var st := engine[0];
      engine := engine[1..];
      total := totalRead;
      if st.state.Err? {
        return Err(FromRustls(st.state.error)), total;
      }
      match st.state.value {
        case EncodeTlsData(_) =>
          r := HandshakeArm(st.discard, action, st.state.value);
        case TransmitTlsData(_) =>
          r := HandshakeArm(st.discard, action, st.state.value);
        case BlockedHandshake =>
          r := HandshakeArm(st.discard, action, st.state.value);
        case WriteTraffic(encrypt, closeNotify) =>
          r := WriteTrafficArm(st.discard, action, encrypt, closeNotify);
        case ReadTraffic(next) =>
          r, total := ReadTrafficArm(st.discard, action, next, buf, totalRead);
        case PeerClosed =>
          MoveInboundHead(st.discard);
          status := status.(peerClosed := true);
          r := Ok(());
        case Closed =>
          status := status.(connectionClosed := true);
          r := Ok(());
        case OtherState =>
          r := Err(UnexpectedState);
      }
    }

    /** `complete_handshake`. */
    method CompleteHandshake() returns (r: Exit<()>)
      requires Valid()
      modifies this, inBuffer, inBuffer.buf, outBuffer, outBuffer.buf
      ensures Valid() && Run(Abs(), r) == HandshakeRun(old(Abs()))
    {
      var none := new byte[0];
      while !status.handshakeComplete && !status.connectionClosed
        invariant Valid() && none.Length == 0 && none != inBuffer.buf && none != outBuffer.buf
        invariant HandshakeRun(Abs()) == HandshakeRun(old(Abs()))
        decreases |engine|
      {
        if |engine| == 0 {
          return Stalled;
        }
        var res, _ := TlsStateMachineAdvance(Handshake, none, 0);
        if res.Err? {
          return Returned(Err(res.error));
        }
      }
      return Returned(Ok(()));
    }

    /** `read_tls(buf)`. */
    method ReadTls(buf: array<byte>) returns (r: Exit<nat>)
      requires Valid() && buf != inBuffer.buf && buf != outBuffer.buf
      modifies this, inBuffer, inBuffer.buf, outBuffer, outBuffer.buf, buf
      ensures Valid() && ReadRun(Abs(), buf[..], r) == ReadTlsRun(old(Abs()), old(buf[..]))
    {
      var totalRead := 0;
      if status.connectionClosed || status.peerClosed {
        return Returned(Ok(0));
      }
      status := status.(receivedResponse := false);
      ghost var start := Abs();
      while !status.receivedResponse && !status.connectionClosed && !status.peerClosed
        invariant Valid()
        invariant ReadLoop(Abs(), buf[..], totalRead) == ReadLoop(start, old(buf[..]), 0)
        decreases |engine|
      {
        if |engine| == 0 {
          return Stalled;
        }
        var res;
        res, totalRead := TlsStateMachineAdvance(ReadRecord, buf, totalRead);
        if res.Err? {
          return Returned(Err(res.error));
        }
      }
      return Returned(Ok(totalRead));
    }

    /** `write_tls(data)`. */
    method WriteTls(data: seq<byte>) returns (r: Exit<()>)
      requires Valid()
      modifies this, inBuffer, inBuffer.buf, outBuffer, outBuffer.buf
      ensures Valid() && Run(Abs(), r) == WriteTlsRun(old(Abs()), data)
    {
      if status.connectionClosed {
        return Returned(Err(ConnectionClosed));
      }
      if |engine| == 0 {
        return Stalled;
      }
      var none := new byte[0];
      var res, _ := TlsStateMachineAdvance(WriteRecord(data), none, 0);
      if res.Err? {
        return Returned(Err(res.error));
      }
      if !status.requestSent {
        return Returned(Err(TlsError.GenericError));
      }
      return Returned(Ok(()));
    }

    /** `close_tls`. */
    method CloseTls() returns (r: Exit<()>)
      requires Valid()
      modifies this, inBuffer, inBuffer.buf, outBuffer, outBuffer.buf
      ensures Valid() && Run(Abs(), r) == CloseRun(old(Abs()))
    {
      var none := new byte[0];
      while !status.connectionClosed
        invariant Valid() && none.Length == 0 && none != inBuffer.buf && none != outBuffer.buf
        invariant CloseRun(Abs()) == CloseRun(old(Abs()))
        decreases |engine|
      {
        if |engine| == 0 {
          return Stalled;
        }
        var res, _ := TlsStateMachineAdvance(CloseConnection, none, 0);
        if res.Err? {
          return Returned(Err(res.error));
        }
      }
      return Returned(Ok(()));
    }
  }
}
