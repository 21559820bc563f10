# TLS 1.3 client and HTTPS peer of the SVSM kernel, in Dafny

This project models the TLS layer of the SVSM kernel (`kernel/src/tls`).
The kernel drives a rustls unbuffered client connection over a vsock stream.
It keeps encrypted records in two fixed-size byte buffers, and it speaks a
small HTTP/1.x dialect on top. The model covers:

- **Record constants** (`constant.dfy`). These are the header layout, the
  big-endian length field and the buffer sizes.
- **The record buffer** (`buffer.dfy`). `TlsBuffer` is a class over an
  `array<byte>` with `head`/`tail` pointers. Every method is proved equal to a
  function on a value view: `Advanced`, `HeadMoved`, `Reset`, `Compacted`,
  `SpaceEnsured` and `Filled`. Lemmas about these functions give the
  buffer's promises.
- **Error mapping** (`error.dfy`). This is the conversion of rustls errors
  into the connection's `TlsError`.
- **The AES-128-GCM adapter** (`aead.dfy`). The AES-GCM primitives, the nonce
  and the additional data are parameters, and their round trip is a
  hypothesis. Under it, decrypting a sealed record gives back its content
  type and payload.
- **The connection state machine.**
  - `connection_spec.dfy` holds the functional specification: one step
    `Advance`, and the loops `HandshakeRun`, `ReadTlsRun`, `WriteTlsRun` and
    `CloseRun`.
  - `connection.dfy` holds the class `TlsConnection`, whose methods
    (`tls_state_machine_advance` and each of its arms, `read_tls`,
    `write_tls`, `close_tls`, `recv_record_over_vsock`, ...) are proved
    equal to that specification.
  - `connection_props.dfy` proves the properties:
    - the inbound byte accounting;
    - the intent cross-check;
    - flags are never cleared;
    - each flag is set only by the step that does the work it announces;
    - the read totals stay within the caller's buffer.
- **HTTP text** (`http_text.dfy`, `request.dfy`, `response.dfy`). This covers
  serialisation of requests and responses, their builders, the decimal
  numerals, the UTF-8 check and the ASCII case folding.
- **The HTTPS peer** (`https_peer.dfy`). The class `HttpsConnection` holds
  the receive buffer and `body_start`. Its header loop, body loop and
  receive operations are proved equal to functions on a `Peer` value, and
  lemmas relate what is received to what the parser reported.
- **The key logger** (`key_logger.dfy`). Secrets are written as lowercase
  hexadecimal. The model proves the length, the position of each pair,
  concatenation, the round trip through a decoder and injectivity.

Environment parts are modelled as data or parameters:

- The rustls engine is a finite script of `UnbufferedStatus` answers. Each
  answer carries what `encode`, `encrypt`, `queue_close_notify`,
  `next_record` and `is_handshaking` would return at that point.
- The vsock stream is a sequence of incoming bytes plus a log of written
  bytes.
- For the HTTP layer, `read_tls` is a script of per-call answers.
- The `httparse` parser is a function parameter that returns `Partial`,
  `Complete(body_start, head)` or an error.
- A Rust `HashMap`'s iteration order is a parameter that lists each key
  exactly once.

## Model

| member | source | states |
|---|---|---|
| Base.Min | kernel/src/tls/connection.rs:256 | the smaller of two lengths: at most both, and equal to one of them |
| Constant.RecordHeader | kernel/src/tls/constant.rs:2-4 | a record header is exactly `HEADER_LEN` (5) bytes |
| Constant.RecordLength | kernel/src/tls/buffer.rs:62-63 | the big-endian length field read from bytes 3 and 4 is below 2^16 |
| Constant.LengthFieldIsBigEndian | kernel/src/tls/constant.rs:2-4 | reading the length back from a header written with that length gives the length; the two length bytes are the last two of the header, high byte first |
| Constant.RecordLengthInjective | kernel/src/tls/buffer.rs:62-63 | two headers that announce the same length agree on both length bytes |
| Constant.Sizes | kernel/src/tls/constant.rs:2-8 | `HEADER_LEN` 5, AEAD overhead 17, inbound buffer 16406 = 2^14 + 17 + 5 bytes, outbound 1024, and a full inbound buffer's payload room stays below the largest TLS 1.3 ciphertext |
| Error.FromRustls | kernel/src/tls/error.rs:33-61 | a rustls error never maps to one of the connection's own error kinds; `DecryptError`, `EncryptError` and `ConnectionClosed` come from exactly `DecryptError`, `EncryptError` and `AlertReceived` |
| Error.FromInvalidDnsName | kernel/src/tls/error.rs:27-31 | an invalid DNS name becomes `InvalidDnsName` |
| Error.FromEncodeFailure | kernel/src/tls/error.rs:64-68 | every encode failure becomes `EncodeError` |
| Error.FromEncryptFailure | kernel/src/tls/error.rs:70-74 | every encrypt failure becomes `EncryptError` |
| Error.EncryptFailuresAgree | kernel/src/tls/error.rs:44-45 | an unbuffered encrypt failure and rustls' `EncryptError` give the same error |
| Error.HandshakeFailuresCollapse | kernel/src/tls/error.rs:39-57 | `HandshakeFailed` comes from exactly the nine handshake-related rustls errors, and rustls' `HandshakeNotComplete` never becomes the local `HandshakeNotComplete` |
| Error.CertificateErrorsMap | kernel/src/tls/error.rs:49 | `InvalidCertificate` comes from exactly invalid certificates and invalid revocation lists |
| Error.GenericFallback | kernel/src/tls/error.rs:50-59 | `GenericError` comes from exactly `General`, `FailedToGetCurrentTime`, `Other` and the unlisted errors |
| Buffer.Empty | kernel/src/tls/buffer.rs:25-31 | a new buffer of `size` bytes is well formed, holds no used bytes and has `size` bytes free |
| Buffer.Advanced | kernel/src/tls/buffer.rs:67-73 | advancing succeeds exactly when `n` bytes are free; then the `n` bytes after the tail join the used region; otherwise `BufferTooSmall` and nothing changes |
| Buffer.HeadMoved | kernel/src/tls/buffer.rs:102-107 | discarding `n` bytes drops `min(n, used)` bytes from the front of the used region and never passes the tail |
| Buffer.Reset | kernel/src/tls/buffer.rs:76-79 | after a reset nothing is used and the whole buffer is free |
| Buffer.Compacted | kernel/src/tls/buffer.rs:110-122 | compaction moves the used bytes to the front, keeping them, and frees everything else |
| Buffer.SpaceEnsured | kernel/src/tls/buffer.rs:84-99 | succeeds exactly when the buffer could hold `needed` more bytes after compaction; compacts only when the free tail is too short; never changes the used bytes; fails with `BufferTooSmall` |
| Buffer.Filled | kernel/src/tls/buffer.rs:44-46 | writing into the free region places the data right after the tail and leaves the used region and pointers as they were |
| Buffer.NoNeedlessCompaction | kernel/src/tls/buffer.rs:85-89 | with enough free space, ensuring space changes nothing |
| Buffer.CompactionBeforeFailure | kernel/src/tls/buffer.rs:91-96 | with too little free space the buffer is compacted whether or not the call then fails |
| Buffer.OperationsKeepInvariant | kernel/src/tls/buffer.rs:11-18 | every operation keeps `head <= tail <= len` and the buffer's size |
| Buffer.TlsBuffer.View | kernel/src/tls/buffer.rs:11-18 | the abstract view carries the byte array and the two pointers |
| Buffer.TlsBuffer.constructor | kernel/src/tls/buffer.rs:25-31 | a new buffer is the empty view of its size |
| Buffer.TlsBuffer.CurrUsedBuf | kernel/src/tls/buffer.rs:34-41 | the used slice is the bytes from head to tail |
| Buffer.TlsBuffer.RemainingBuf | kernel/src/tls/buffer.rs:44-46 | the remaining slice is everything after the tail |
| Buffer.TlsBuffer.MutableSliceFromRemaining | kernel/src/tls/buffer.rs:49-54 | a slice of `size` bytes at the tail exists exactly when it fits; otherwise `BufferTooSmall` |
| Buffer.TlsBuffer.ExtractRecordLenFromCurrentPosition | kernel/src/tls/buffer.rs:58-64 | succeeds exactly when a header fits after the tail, and then returns the big-endian length of the header there; otherwise `BufferTooSmall` |
| Buffer.TlsBuffer.AdvanceUsed | kernel/src/tls/buffer.rs:67-73 | the new state and result are `Advanced` of the old state |
| Buffer.TlsBuffer.ResetUsed | kernel/src/tls/buffer.rs:76-79 | the new state is `Reset` of the old |
| Buffer.TlsBuffer.EnsureSpace | kernel/src/tls/buffer.rs:84-99 | the new state and result are `SpaceEnsured` of the old state |
| Buffer.TlsBuffer.MoveHead | kernel/src/tls/buffer.rs:102-107 | the new state is `HeadMoved` of the old |
| Buffer.TlsBuffer.Compact | kernel/src/tls/buffer.rs:110-122 | the array shifted in place equals `Compacted` of the old state |
| Buffer.TlsBuffer.FillRemaining | kernel/src/tls/buffer.rs:44-46 | writing through the remaining slice gives `Filled` of the old state |
| Aead.KeyLen | kernel/src/tls/crypto_provider/aead.rs:41-43 | the key length is the AES-128 key size, 16 bytes |
| Aead.ExtractKeys | kernel/src/tls/crypto_provider/aead.rs:45-51 | always succeeds with AES-128-GCM secrets holding the given key and IV |
| Aead.NewCipher | kernel/src/tls/crypto_provider/aead.rs:27-39 | a cipher exists exactly for keys of the key length, and it holds that key and IV |
| Aead.EncryptedPayloadLen | kernel/src/tls/crypto_provider/aead.rs:86-88 | the ciphertext is the payload plus a 16-byte tag and one content-type byte |
| Aead.InnerPlaintext | kernel/src/tls/crypto_provider/aead.rs:63-67 | the sealed plaintext is the payload followed by one content-type byte |
| Aead.Sealed | kernel/src/tls/crypto_provider/aead.rs:58-84 | on success the record is application data, version TLS 1.2, with a payload of the encrypted length; a failure is `EncryptError` |
| Aead.Opened | kernel/src/tls/crypto_provider/aead.rs:92-109 | a failed authentication is `DecryptError`; otherwise the result is the unpadded plaintext |
| Aead.Encrypt | kernel/src/tls/crypto_provider/aead.rs:58-84 | the result is `Sealed` of the inputs, an application-data record labelled TLS 1.2 |
| Aead.Decrypt | kernel/src/tls/crypto_provider/aead.rs:92-109 | the result is `Opened` of the inputs |
| Aead.EncryptThenDecrypt | kernel/src/tls/crypto_provider/aead.rs:58-109 | decrypting a sealed record with the same key, IV and sequence number gives back the content type and payload |
| Aead.FailedOpenIsDecryptError | kernel/src/tls/crypto_provider/aead.rs:104-106 | a failed authentication reaches the connection as its `DecryptError` |
| KeyLogger.HexDigit | kernel/src/tls/key_logger.rs:15 | a digit of `{:02x}` is a lowercase hexadecimal digit whose value is `n` |
| KeyLogger.DigitValue | kernel/src/tls/key_logger.rs:15 | a character has a value exactly when it is a lowercase hexadecimal digit, and the value is below 16 |
| KeyLogger.HexPair | kernel/src/tls/key_logger.rs:15 | a byte is written as two lowercase hexadecimal digits, high nibble first, that read back as the byte |
| KeyLogger.Hex | kernel/src/tls/key_logger.rs:12-18 | the loop that appends one pair per byte yields `HexOf` of the bytes, the specification that writes every byte's pair in order |
| KeyLogger.UnHex | kernel/src/tls/key_logger.rs:12-18 | a decoded string is twice as long as the bytes it gives |
| KeyLogger.HexLength | kernel/src/tls/key_logger.rs:12-18 | the hexadecimal is exactly two characters per byte, and empty for no bytes |
| KeyLogger.HexIsLowerHex | kernel/src/tls/key_logger.rs:15 | every character written is a lowercase hexadecimal digit |
| KeyLogger.HexAppend | kernel/src/tls/key_logger.rs:14-16 | the hexadecimal of a concatenation is the concatenation of the hexadecimals |
| KeyLogger.HexPairAt | kernel/src/tls/key_logger.rs:14-16 | byte `i` is written at characters `2i` and `2i+1` as its pair |
| KeyLogger.PairRoundTrip | kernel/src/tls/key_logger.rs:15 | the two digits written for a byte decode back to that byte |
| KeyLogger.UnHexHex | kernel/src/tls/key_logger.rs:12-18 | decoding the hexadecimal gives back the bytes |
| KeyLogger.HexInjective | kernel/src/tls/key_logger.rs:15 | distinct byte strings give distinct hexadecimal |
| KeyLogger.Log | kernel/src/tls/key_logger.rs:11-28 | the logged text is `KeyLog: ` followed by `LogLine`, the message: the label, a space, the client random's `HexOf`, a space and the secret's `HexOf` |
| KeyLogger.LogLineParts | kernel/src/tls/key_logger.rs:20-25 | the message splits back into the label, the client random and the secret at the two separating spaces |
| ConnectionSpec.NewDetails | kernel/src/tls/connection.rs:411-423 | a new connection has every status flag clear |
| ConnectionSpec.NewConn | kernel/src/tls/connection.rs:97-110 | a new connection satisfies the invariant, has clear flags, has written nothing and holds two empty buffers |
| ConnectionSpec.MoveHead | kernel/src/tls/connection.rs:182 | discarding inbound bytes changes only the inbound buffer, as `HeadMoved` |
| ConnectionSpec.SockRead | kernel/src/tls/connection.rs:333-335 | a socket read of `k` bytes returns `min(k, available)`, consumes that many bytes of the stream and places them after the inbound tail |
| ConnectionSpec.Send | kernel/src/tls/connection.rs:317-324 | sending appends the outbound used bytes to what was written and empties the outbound buffer |
| ConnectionSpec.Commit | kernel/src/tls/connection.rs:311-312 | committing a record appends it to the outbound used bytes and changes nothing else |
| ConnectionSpec.Encoded | kernel/src/tls/connection.rs:307-314 | an encoded record is accepted exactly when encoding succeeded and it fits the free space; otherwise `EncodeError` |
| ConnectionSpec.Encrypted | kernel/src/tls/connection.rs:285-304 | an encrypted record is accepted exactly when encryption succeeded and it fits the free space; otherwise `EncryptError` |
| ConnectionSpec.RecvHeader | kernel/src/tls/connection.rs:331-342 | reading a header touches only the inbound side; it fails only with `BufferTooSmall` or `IncompleteRead` |
| ConnectionSpec.RecvPayload | kernel/src/tls/connection.rs:344-354 | reading a payload touches only the inbound side; it fails only with `BufferTooSmall` or `IncompleteRead` |
| ConnectionSpec.Recv | kernel/src/tls/connection.rs:327-357 | receiving a record touches only the inbound side; it fails only with `BufferTooSmall` or `IncompleteRead` |
| ConnectionSpec.Transmitted | kernel/src/tls/connection.rs:186-197 | transmitting sends the outbound bytes, and sets `handshake_complete` exactly when the engine is no longer handshaking |
| ConnectionSpec.HandshakeStep | kernel/src/tls/connection.rs:173-206 | a handshake arm keeps the connection invariant and consumes no engine answer of its own |
| ConnectionSpec.WriteTrafficStep | kernel/src/tls/connection.rs:213-236 | the write-traffic arm keeps the connection invariant |
| ConnectionSpec.ReadTrafficStep | kernel/src/tls/connection.rs:239-261 | the read-traffic arm keeps the invariant and the size of the caller's buffer |
| ConnectionSpec.Advance | kernel/src/tls/connection.rs:161-282 | one step consumes exactly one engine answer, keeps the invariant and the caller's buffer size |
| ConnectionSpec.HandshakeRun | kernel/src/tls/connection.rs:113-118 | the handshake loop keeps the invariant |
| ConnectionSpec.ReadLoop | kernel/src/tls/connection.rs:126-135 | the read loop keeps the invariant and the caller's buffer size |
| ConnectionSpec.ReadTlsRun | kernel/src/tls/connection.rs:121-137 | `read_tls` keeps the invariant and the caller's buffer size; what it returns is stated by `ReadTlsWhenClosed`, `ReadLoopOkMeansDone`, `ReadTlsTotal` and `ReadTlsRunKeepsFlags` |
| ConnectionSpec.WriteTlsRun | kernel/src/tls/connection.rs:140-150 | `write_tls` keeps the invariant; what it returns is stated by `WriteTlsOutcome` and `WriteTlsSends` |
| ConnectionSpec.CloseRun | kernel/src/tls/connection.rs:153-158 | the close loop keeps the invariant; what it returns is stated by `CloseRunOkMeansClosed`, `CloseRunKeepsFlags` and `CloseRunAfterNotifyWritesNothing` |
| Connection.TlsConnection.constructor | kernel/src/tls/connection.rs:99-110 | a new connection is `NewConn` with two fresh buffers of 16406 and 1024 bytes |
| Connection.TlsConnection.SockReadIntoInbound | kernel/src/tls/connection.rs:333-335 | the new state and count are `SockRead` of the old state |
| Connection.TlsConnection.SendRecordOverVsock | kernel/src/tls/connection.rs:317-324 | the new state is `Send` of the old |
| Connection.TlsConnection.RecvHeaderOverVsock | kernel/src/tls/connection.rs:331-342 | the new state and length are `RecvHeader` of the old state |
| Connection.TlsConnection.RecvPayloadOverVsock | kernel/src/tls/connection.rs:344-354 | the new state and result are `RecvPayload` of the old state |
| Connection.TlsConnection.RecvRecordOverVsock | kernel/src/tls/connection.rs:327-357 | the new state and result are `Recv` of the old state |
| Connection.TlsConnection.CommitOutbound | kernel/src/tls/connection.rs:311-312 | the new state is `Commit` of the old |
| Connection.TlsConnection.PrepareHandshakeRecord | kernel/src/tls/connection.rs:307-314 | on an encode failure or too small a buffer nothing changes and the error is returned; otherwise the record is committed |
| Connection.TlsConnection.EncryptData | kernel/src/tls/connection.rs:285-294 | on an encrypt failure or too small a buffer nothing changes and the error is returned; otherwise the record is committed |
| Connection.TlsConnection.MoveInboundHead | kernel/src/tls/connection.rs:182 | the new state is `MoveHead` of the old |
| Connection.TlsConnection.HandshakeArm | kernel/src/tls/connection.rs:173-206 | the new state and result are `HandshakeStep` of the old state |
| Connection.TlsConnection.EncodeArm | kernel/src/tls/connection.rs:173-183 | the new state and result are the encode arm of `HandshakeStep` |
| Connection.TlsConnection.TransmitArm | kernel/src/tls/connection.rs:186-197 | the new state is `Transmitted` of the old |
| Connection.TlsConnection.WriteTrafficArm | kernel/src/tls/connection.rs:213-236 | the new state and result are `WriteTrafficStep` of the old state |
| Connection.TlsConnection.ReadTrafficArm | kernel/src/tls/connection.rs:239-261 | the new state, caller's buffer, total and result are `ReadTrafficStep` of the old ones |
| Connection.TlsConnection.TlsStateMachineAdvance | kernel/src/tls/connection.rs:161-282 | the new state, caller's buffer, total and result are `Advance` of the old ones |
| Connection.TlsConnection.CompleteHandshake | kernel/src/tls/connection.rs:113-118 | the new state and exit are `HandshakeRun` of the old state |
| Connection.TlsConnection.ReadTls | kernel/src/tls/connection.rs:121-137 | the new state, caller's buffer and exit are `ReadTlsRun` of the old ones |
| Connection.TlsConnection.WriteTls | kernel/src/tls/connection.rs:140-150 | the new state and exit are `WriteTlsRun` of the old state |
| Connection.TlsConnection.CloseTls | kernel/src/tls/connection.rs:153-158 | the new state and exit are `CloseRun` of the old state |
| ConnectionProperties.AnnouncedLength | kernel/src/tls/connection.rs:341 | the length a header announces is below 2^16 |
| ConnectionProperties.HeaderAccounting | kernel/src/tls/connection.rs:331-342 | reading a header succeeds exactly when the stream holds 5 bytes and the buffer has room for them; then it returns the announced length, and the 5 bytes move from the stream to the used region |
| ConnectionProperties.PayloadAccounting | kernel/src/tls/connection.rs:344-354 | reading a payload of `len` succeeds exactly when the stream holds `len` bytes and the buffer has room; then those bytes move from the stream to the used region |
| ConnectionProperties.RecvAccounting | kernel/src/tls/connection.rs:327-357 | a record is received exactly when the stream holds the header and the whole announced payload and the buffer has room for both; then exactly those bytes move into the used region |
| ConnectionProperties.InboundRecordFits | kernel/src/tls/constant.rs:7 | an empty inbound buffer takes a complete record exactly when it announces at most 16401 payload bytes |
| ConnectionProperties.LargestCiphertextRefused | kernel/src/tls/constant.rs:5-7 | a record announcing more than 16401 bytes, up to the TLS 1.3 maximum ciphertext, is refused with `BufferTooSmall` |
| ConnectionProperties.IntentCrossCheck | kernel/src/tls/connection.rs:167-279 | a step fails with `UnexpectedState` exactly when the engine's state does not fit the action, and then nothing but the engine changes |
| ConnectionProperties.ReadTrafficAccounting | kernel/src/tls/connection.rs:239-261 | a read-traffic step copies `min(buffer, payload)` bytes to the front of the caller's buffer, keeps the rest, adds that count to the total, discards both discards and sets `received_response` |
| ConnectionProperties.ReadTrafficWithoutRecord | kernel/src/tls/connection.rs:244-247 | a read-traffic state with no record fails with `GenericError` and changes nothing else |
| ConnectionProperties.AdvanceKeepsFlags | kernel/src/tls/connection.rs:161-282 | a step never clears a status flag |
| ConnectionProperties.HandshakeStepKeepsFlags | kernel/src/tls/connection.rs:173-206 | a handshake arm never clears a status flag |
| ConnectionProperties.WriteTrafficStepKeepsFlags | kernel/src/tls/connection.rs:213-236 | the write-traffic arm never clears a status flag |
| ConnectionProperties.HandshakeRunKeepsFlags | kernel/src/tls/connection.rs:113-118 | the handshake loop never clears a status flag |
| ConnectionProperties.ReadLoopKeepsFlags | kernel/src/tls/connection.rs:126-135 | the read loop never clears a status flag |
| ConnectionProperties.ReadTlsRunKeepsFlags | kernel/src/tls/connection.rs:121-137 | `read_tls` never clears a flag other than `received_response` |
| ConnectionProperties.CloseRunKeepsFlags | kernel/src/tls/connection.rs:153-158 | the close loop never clears a status flag |
| ConnectionProperties.RequestSentAfterWrite | kernel/src/tls/connection.rs:218-222 | `request_sent` becomes set only by a successful write in the write-traffic state, which sends the encrypted record |
| ConnectionProperties.OurSideClosedAfterNotify | kernel/src/tls/connection.rs:223-230 | `our_side_closed` becomes set only by a successful close in the write-traffic state, which sends the close_notify alert |
| ConnectionProperties.HandshakeCompleteAfterTransmit | kernel/src/tls/connection.rs:186-197 | `handshake_complete` becomes set only by a handshake transmit after which the engine is no longer handshaking, and that step sends the outbound bytes |
| ConnectionProperties.HandshakeRunOkMeansDone | kernel/src/tls/connection.rs:113-118 | when the handshake loop returns success, the handshake is complete or the connection is closed |
| ConnectionProperties.CloseStepAfterNotifyWritesNothing | kernel/src/tls/connection.rs:223-235 | once close_notify was sent, a close step writes nothing more |
| ConnectionProperties.CloseRunAfterNotifyWritesNothing | kernel/src/tls/connection.rs:153-158 | once close_notify was sent, the whole close loop writes nothing more |
| ConnectionProperties.ReadLoopTotal | kernel/src/tls/connection.rs:126-136 | the read loop's total grows by at most the caller's buffer size |
| ConnectionProperties.ReadTlsTotal | kernel/src/tls/connection.rs:121-137 | the count `read_tls` returns never exceeds the caller's buffer |
| ConnectionProperties.ReadTlsWhenClosed | kernel/src/tls/connection.rs:123-125 | on a connection either side has closed, `read_tls` returns 0 and changes neither the connection nor the caller's buffer |
| ConnectionProperties.ReadLoopOkMeansDone | kernel/src/tls/connection.rs:126-135 | the read loop returns success only once a record was received or either side closed |
| ConnectionProperties.WriteTlsOutcome | kernel/src/tls/connection.rs:140-150 | on a closed connection `write_tls` fails with `ConnectionClosed` and changes nothing; otherwise it consumes exactly one engine answer, passes on that step's error, succeeds exactly when the step succeeded and `request_sent` is set, and fails with `GenericError` when the step succeeded without it |
| ConnectionProperties.WriteTlsSends | kernel/src/tls/connection.rs:140-150 | a `write_tls` that succeeds on a connection that had not sent its request ran in the write-traffic state, and appended the pending output and the encrypted data to what was written |
| ConnectionProperties.CloseRunOkMeansClosed | kernel/src/tls/connection.rs:153-158 | the close loop returns success only once `connection_closed` is set |
| ConnectionProperties.WriteSucceedsWithoutSending | kernel/src/tls/connection.rs:140-150 | once a request was sent, `write_tls` reports success even when the step sent nothing |
| HttpText.Ascii | kernel/src/tls/http/request.rs:39-42 | an ASCII string becomes the same number of bytes, each the character's code |
| HttpText.Decimal | kernel/src/tls/http/request.rs:39 | `{}` of a number is a non-empty run of digits with no leading zero |
| HttpText.ParseUsize | kernel/src/tls/https_peer.rs:287 | an accepted numeral starts with a digit or `+` and denotes a value that fits a 64-bit `usize` |
| HttpText.DecimalValue | kernel/src/tls/http/request.rs:52 | the digits written for `n` denote `n` |
| HttpText.ParseDecimal | kernel/src/tls/https_peer.rs:287 | parsing the digits written for a `usize` gives it back |
| HttpText.DecimalInjective | kernel/src/tls/http/request.rs:52 | distinct numbers are written differently |
| HttpText.Utf8SeqLen | kernel/src/tls/https_peer.rs:260-261 | a UTF-8 sequence is one to four bytes long and lies within the input |
| HttpText.AsciiIsUtf8 | kernel/src/tls/https_peer.rs:260-261 | ASCII text always passes the UTF-8 check |
| HttpText.AsciiLower | kernel/src/tls/https_peer.rs:285 | only the letters `A`-`Z` are folded, to their lowercase form |
| HttpText.FieldLine | kernel/src/tls/http/request.rs:47 | a field line starts with the name, is four bytes longer than name and value, and ends in CRLF |
| HttpText.Entries | kernel/src/tls/http/request.rs:46-48 | the map's entries in iteration order: entry `i` is key `i` with its value |
| HttpText.EmittedFields | kernel/src/tls/http/request.rs:45-53 | the map's entries, then one `Content-Length` field with the body length exactly when the body is non-empty and the exact name `Content-Length` is absent |
| HttpText.FieldLines | kernel/src/tls/http/request.rs:46-48 | non-empty field lines end in CRLF |
| HttpText.HeaderSection | kernel/src/tls/http/request.rs:45-55 | the header section ends in CRLF, and in a blank line after the last field when there is a field |
| HttpText.MessageLayout | kernel/src/tls/http/request.rs:57-62 | a message built from a start line, a section ending in CRLF and a body begins with the start line and ends with the body right after the CRLF |
| HttpText.EmittedFieldsExactlyOnce | kernel/src/tls/http/request.rs:45-53 | every header is emitted exactly once with its value, names never repeat, and the only extra field is the added `Content-Length` |
| HttpText.RenderHeaderSection | kernel/src/tls/http/request.rs:45-55 | the string the loop builds is `HeaderSection` of the map, its iteration order and the body |
| Request.RequestLine | kernel/src/tls/http/request.rs:36-43 | the request line ends in CRLF, and is `GET / HTTP/1.1` unless method, path and version are all present |
| Request.RequestLayout | kernel/src/tls/http/request.rs:35-63 | the request bytes begin with the request line and end with the body, right after a CRLF |
| Request.ToBytes | kernel/src/tls/http/request.rs:35-63 | the bytes built are `RequestBytes` of the request and its header order |
| Request.RenderRequestLine | kernel/src/tls/http/request.rs:36-43 | the line built is `RequestLine` of the request |
| Request.RequestLineParts | kernel/src/tls/http/request.rs:37-39 | with all three parts present, the line is method, space, path, ` HTTP/1.`, a numeral that parses back to the version, CRLF |
| Request.NewBuilder | kernel/src/tls/http/request.rs:76-84 | a new builder has no method, path or version, no headers and no body |
| Request.WithMethod | kernel/src/tls/http/request.rs:86-89 | sets the method and nothing else |
| Request.WithPath | kernel/src/tls/http/request.rs:90-93 | sets the path and nothing else |
| Request.WithVersion | kernel/src/tls/http/request.rs:94-97 | sets the version and nothing else |
| Request.WithHeader | kernel/src/tls/http/request.rs:98-101 | maps the name to the value, keeps every other header, and changes nothing else |
| Request.WithBody | kernel/src/tls/http/request.rs:102-105 | sets the body and nothing else |
| Request.Build | kernel/src/tls/http/request.rs:106-114 | always succeeds with the builder's fields |
| Request.HeaderReplaces | kernel/src/tls/http/request.rs:98-101 | a second value for the same name replaces the first |
| Request.DistinctHeadersCommute | kernel/src/tls/http/request.rs:98-101 | headers with distinct names may be added in either order |
| Request.DefaultRequest | kernel/src/tls/http/request.rs:41-42 | a request built from a new builder is `GET / HTTP/1.1` followed by a blank line |
| Response.StatusLine | kernel/src/tls/http/response.rs:36-42 | the status line ends in CRLF, and is `HTTP/1.1 200 OK` unless version, code and reason are all present |
| Response.ResponseLayout | kernel/src/tls/http/response.rs:35-62 | the response bytes begin with the status line and end with the body, right after a CRLF |
| Response.ToBytes | kernel/src/tls/http/response.rs:35-62 | the bytes built are `ResponseBytes` of the response and its header order |
| Response.RenderStatusLine | kernel/src/tls/http/response.rs:36-42 | the line built is `StatusLine` of the response |
| Response.StatusLineParts | kernel/src/tls/http/response.rs:37-38 | with all three parts present, the line is `HTTP/1.`, a numeral for the version, a space, a numeral for the code, a space, the reason, CRLF, and both numerals parse back |
| Response.NewBuilder | kernel/src/tls/http/response.rs:75-83 | a new builder holds version 1, code 200, reason `OK`, no headers and no body |
| Response.WithVersion | kernel/src/tls/http/response.rs:85-88 | sets the version and nothing else |
| Response.WithCode | kernel/src/tls/http/response.rs:90-93 | sets the code and nothing else |
| Response.WithReason | kernel/src/tls/http/response.rs:95-98 | sets the reason and nothing else |
| Response.WithHeader | kernel/src/tls/http/response.rs:100-103 | maps the name to the value, keeps every other header, and changes nothing else |
| Response.WithBody | kernel/src/tls/http/response.rs:105-108 | sets the body and nothing else |
| Response.Build | kernel/src/tls/http/response.rs:110-118 | always succeeds with the builder's fields |
| Response.HeaderReplaces | kernel/src/tls/http/response.rs:100-103 | a second value for the same name replaces the first |
| Response.DefaultStatusLine | kernel/src/tls/http/response.rs:37-41 | the default builder's line is `HTTP/1.1 200 OK`, the same line the fallback writes when the code is missing |
| Response.DefaultResponse | kernel/src/tls/http/response.rs:40-41 | a response built from a new builder is `HTTP/1.1 200 OK` followed by a blank line |
| HttpsPeer.ReadInto | kernel/src/tls/https_peer.rs:126-128 | a read into the buffer at `at` keeps the buffer's size and `body_start`, stays inside the buffer, and uses up one answer when it returns bytes |
| HttpsPeer.ReadPlacesBytes | kernel/src/tls/https_peer.rs:126-128 | a read changes only the slice it was given: it copies `min(room, record)` bytes of the next record to `at` |
| HttpsPeer.ContentLengthOf | kernel/src/tls/https_peer.rs:283-294 | no length exactly when no header is named `Content-Length` in any ASCII case (`EqIgnoreAsciiCase`) with a UTF-8 (`ValidUtf8`) value that parses; otherwise the value of the first such header |
| HttpsPeer.ExtractContentLength | kernel/src/tls/https_peer.rs:283-294 | the loop returns `ContentLengthOf` of the headers |
| HttpsPeer.KeptHeadersLastWins | kernel/src/tls/https_peer.rs:259-265 | `KeptHeaders`, the headers copied into the builder: for every name the last header with UTF-8 name and value wins, headers are only added from the parsed list, and untouched builder headers stay |
| HttpsPeer.BuildHeadersRequest | kernel/src/tls/https_peer.rs:255-267 | always succeeds, adding the UTF-8 headers in order to the builder |
| HttpsPeer.BuildHeadersResponse | kernel/src/tls/https_peer.rs:269-281 | always succeeds, adding the UTF-8 headers in order to the builder |
| HttpsPeer.ResponseBuilderOf | kernel/src/tls/https_peer.rs:233-242 | the builder holds the parsed code, reason and version and the kept headers, and no body |
| HttpsPeer.RequestBuilderOf | kernel/src/tls/https_peer.rs:244-253 | the builder holds the parsed method, path and version and the kept headers, and no body |
| HttpsPeer.BuildHttpResponse | kernel/src/tls/https_peer.rs:233-242 | always succeeds with `ResponseBuilderOf` the parse |
| HttpsPeer.BuildHttpRequest | kernel/src/tls/https_peer.rs:244-253 | always succeeds with `RequestBuilderOf` the parse |
| HttpsPeer.HeadersLoop | kernel/src/tls/https_peer.rs:121-160 | the header loop keeps the buffer's size, and a success reports a total that grew and stays within the buffer; its failures are stated by `HeadersLoopReadFailures` and `Concluded` |
| HttpsPeer.HeadersLoopSound | kernel/src/tls/https_peer.rs:121-160 | the loop never changes bytes already read; on success the parser returned `Complete` on the bytes read so far, `body_start` is its offset and the length is the headers' `Content-Length`; on failure `body_start` is unchanged |
| HttpsPeer.Concluded | kernel/src/tls/https_peer.rs:140-158 | a complete parse with a content length succeeds with the total read and sets `body_start`; a parse error fails as the HTTP `GenericError`, a complete head without an accepted content length fails as a missing `Content-Length`; every failure leaves `body_start` |
| HttpsPeer.HeadersLoopReadFailures | kernel/src/tls/https_peer.rs:126-133 | a failed read ends the header loop with that error; a read of no bytes, an exhausted script among them, ends it with `GenericError` |
| HttpsPeer.HeadersStep | kernel/src/tls/https_peer.rs:125-159 | after a read of `n > 0` bytes the loop continues on a partial parse and concludes otherwise |
| HttpsPeer.BodyLoop | kernel/src/tls/https_peer.rs:220-229 | the body loop keeps the buffer's size and `body_start` |
| HttpsPeer.BodyStep | kernel/src/tls/https_peer.rs:221-229 | one body read propagates an error, stops on zero bytes and otherwise continues with the count added |
| HttpsPeer.ParseBody | kernel/src/tls/https_peer.rs:204-231 | never changes the bytes before `total_read`; success always reports `content_length` and means `body_start + content_length` fits a `usize`; it panics exactly when that sum overflows a `usize` or more was read than the sum; nothing is read when exactly that much was |
| HttpsPeer.BodyOf | kernel/src/tls/https_peer.rs:69-91 | a zero length is refused as a missing `Content-Length`; a success is a body of exactly `content_length` bytes taken from the buffer at `body_start`, whose end fits a `usize` |
| HttpsPeer.ReceivedHeadIsParsed | kernel/src/tls/https_peer.rs:67-75 | a received message's head is the parser's complete result on the bytes read, with a non-zero `Content-Length` |
| HttpsPeer.ReceivedBodyIsContentLength | kernel/src/tls/https_peer.rs:67-91 | the body received is exactly as long as the head's `Content-Length` |
| HttpsPeer.ReceivedBodyIsBufferSlice | kernel/src/tls/https_peer.rs:84-87 | the body received is the buffer's bytes from `body_start` on, ending at an offset that fits a `usize` |
| HttpsPeer.ZeroContentLengthRefused | kernel/src/tls/https_peer.rs:69-71 | a `Content-Length` of zero is refused as a missing header |
| HttpsPeer.BodyLoopKeepsHead | kernel/src/tls/https_peer.rs:221-229 | the body loop never changes the bytes read before it |
| HttpsPeer.ContentLengthRoundTrip | kernel/src/tls/http/request.rs:50-53 | when `to_bytes` adds `Content-Length`, the receiver's extraction finds exactly the body length |
| HttpsPeer.CaseSensitiveInsertion | kernel/src/tls/http/request.rs:51 | a header named `content-length` does not stop `to_bytes` adding `Content-Length`, and the receiver then takes the first, stale value |
| HttpsPeer.HttpsConnection.constructor | kernel/src/tls/https_peer.rs:24-36 | a new connection has a zeroed buffer of the given size and `body_start` 0 |
| HttpsPeer.HttpsConnection.ReadTls | kernel/src/tls/https_peer.rs:126-128 | the new state and result are `ReadInto` of the old state |
| HttpsPeer.HttpsConnection.ParseHttpHeaders | kernel/src/tls/https_peer.rs:121-202 | the new state and result are `HeadersLoop` of the old state |
| HttpsPeer.HttpsConnection.ConcludeHeaders | kernel/src/tls/https_peer.rs:140-158 | the new state and result are `Concluded` of the old state |
| HttpsPeer.HttpsConnection.ParseHttpHeadersResponse | kernel/src/tls/https_peer.rs:121-160 | the new state is the header loop's, and success carries its total, its length and the response builder of the parse |
| HttpsPeer.HttpsConnection.ParseHttpHeadersRequest | kernel/src/tls/https_peer.rs:162-202 | the new state is the header loop's, and success carries its total, its length and the request builder of the parse |
| HttpsPeer.HttpsConnection.ParseHttpBody | kernel/src/tls/https_peer.rs:204-231 | the new state and result are `ParseBody` of the old state |
| HttpsPeer.HttpsConnection.ReadBody | kernel/src/tls/https_peer.rs:220-229 | the new state and result are `BodyLoop` of the old state |
| HttpsPeer.HttpsConnection.ReceiveBody | kernel/src/tls/https_peer.rs:69-91 | the new state and result are `BodyOf` of the old state |
| HttpsPeer.HttpsConnection.ReceiveResponse | kernel/src/tls/https_peer.rs:67-92 | the new state is `Receive`'s, and success is the response built from the parsed head and the body |
| HttpsPeer.HttpsConnection.ReceiveRequest | kernel/src/tls/https_peer.rs:94-119 | the new state is `Receive`'s, and success is the request built from the parsed head and the body |

Behaviours of the code that the model keeps as written:

- `recv_record_over_vsock`: when the inbound buffer is too small, `ensure_space` has already compacted the buffer before `BufferTooSmall` is returned. So the buffer is not left untouched (`Buffer.CompactionBeforeFailure`).
- `write_tls`: once `request_sent` is set, it reports success even if the step it took sent nothing (`ConnectionProperties.WriteSucceedsWithoutSending`).
- Request and response serialisation adds `Content-Length` after checking only for the exact name `Content-Length`. A header spelled `content-length` therefore yields two length fields, and the receiver takes the first (`HttpsPeer.CaseSensitiveInsertion`).
- `parse_http_body` reports `content_length` even when fewer body bytes arrived. The body then includes whatever the buffer held at those positions (`HttpsPeer.ParseBody`, `HttpsPeer.BodyOf`).
- The inbound buffer holds 16406 bytes. A record whose payload is longer than 16401 bytes is refused with `BufferTooSmall`, although TLS 1.3 allows ciphertexts of up to 2^14 + 256 bytes (`ConnectionProperties.LargestCiphertextRefused`).
- `https_peer.rs` uses `TlsError::Http(HttpError)`, which `error.rs` does not declare. The model adds that variant.

Byte strings in the HTTP modules are written as byte literals. For example, `DEFAULT_REQUEST_LINE` holds the bytes of `GET / HTTP/1.1` followed by CR LF.

## Left out

- `TlsClient` (`connection.rs:28-85`) is not modelled: the client configuration, root certificates, the time and crypto providers and the DNS-name check inside rustls are rustls internals. The resulting `InvalidDnsName` mapping is modelled in `Error.FromInvalidDnsName`.
- The rustls handshake itself is not modelled. The engine is a script of answers, so the model proves what the connection does with any sequence of answers, not which answers a real peer produces.
- Engine script running out: the loops of `complete_handshake`, `read_tls` and `close_tls` return `Stalled` when the script ends before their exit condition, and so does `write_tls` when no answer is left for its one step. The source would keep calling the engine.
- HttpsPeer.ReadInto: the HTTP layer sees `read_tls` as a script of answers, and an exhausted script answers `Ok(0)`, which the header loop turns into `GenericError` and the body loop into the end of the body. The real `read_tls` would keep stepping the engine instead; what one `read_tls` returns is modelled separately, in `Connection.TlsConnection.ReadTls`.
- Vsock failures are not modelled. A vsock read returns `min(requested, available)` bytes and a write always succeeds, so a socket error never appears as a result.
- In-place decryption: the engine's `process_tls_records` decrypts inside the inbound buffer. The model leaves the buffer bytes unchanged and takes the plaintext from the engine's answer.
- `Drop` and `Debug` for `TlsConnection`, and closing the vsock, are left out because they have no observable effect in the model.
- `log::info!` and `log::error!` calls are left out as I/O. In `KeyLogger.Log` the logged text is returned instead.
- AES-GCM itself, the 96-bit nonce built from the IV and the 64-bit sequence number, `make_tls13_aad` and the removal of padding are function parameters. Their properties are hypotheses (`SealOpens`, `UnpadsTrailer`), not proofs.
- Aead.Sealed: the payload length of a successful seal is stated only under the hypothesis that the primitives produce the tagged length.
- `crypto_provider/mod.rs`, `random.rs`, `time_provider.rs`, `examples.rs`, `kernel/build.rs` and the Python peers are not part of this model. They are configuration, entropy, clock and test harnesses.
- `httparse` is a parameter, so its grammar is left out. That includes its limit of 16 headers per message.
- Constant.RecordLength: the shift-and-or of the two length bytes is written as `hi * 256 + lo`. This is the same value for bytes.
- `send_request`, `send_response` and `close_connection` (`https_peer.rs:48-65`) are not separate members. They are `to_bytes` (`Request.ToBytes`, `Response.ToBytes`) followed by `write_tls`/`close_tls` (`Connection.TlsConnection.WriteTls`, `Connection.TlsConnection.CloseTls`), and the two layers are modelled separately.
- `HttpsPeer.connect` is modelled only by `HttpsPeer.HttpsConnection.constructor`. Its `complete_handshake` call is `Connection.TlsConnection.CompleteHandshake`.
- The addition `body_start + content_length` at `https_peer.rs:215` can overflow a `usize`, the subtraction at `https_peer.rs:218` can underflow one, and an out-of-range slice at `https_peer.rs:86` fails. All three are modelled as a panic (`PeerError.Panic`), as in a debug build; a release build would wrap the addition and the subtraction instead. The addition at `https_peer.rs:86` repeats the one at line 215, so it cannot overflow once that one did not.
