/**
 * The TLS 1.3 record protection adapter over AES-128-GCM
 * (kernel/src/tls/crypto_provider/aead.rs), framing as in sections 5.2 and
 * 5.3 of RFC 8446.
 *
 * The AES-GCM primitive, the nonce construction, the additional-data
 * construction and the inner-plaintext unpadding belong to foreign crates;
 * they are the function-valued fields of `Primitives`, and what the framing
 * relies on is stated as the hypotheses `SealOpens` and `UnpadsTrailer`.
 */
module Aead {
  import opened Base
  import opened Constant
  import opened Error

  /** An unsigned 64-bit value, as Rust's `u64` (the record sequence number). */
  type u64 = n: int | 0 <= n < 0x1_0000_0000_0000_0000

  /** Size of the AES-GCM authentication tag. */
  const AES_GCM_OVERHEAD: nat := 16
  /** Key size of AES-128. */
  const AES128_KEY_SIZE: nat := 16

  /** The content type code of application_data (section 5.1 of RFC 8446). */
  const APPLICATION_DATA: byte := 23
  /** The legacy_record_version written on every TLS 1.3 record. */
  const TLS_V1_2: nat := 0x0303
  /** The version a decrypted TLS 1.3 message carries. */
  const TLS_V1_3: nat := 0x0304

  /** A plaintext record: content type, version and payload. */
  datatype PlainMessage = PlainMessage(typ: byte, version: nat, payload: seq<byte>)

  /** A protected record as it travels: outer type, version and ciphertext. */
  datatype OpaqueMessage = OpaqueMessage(typ: byte, version: nat, payload: seq<byte>)

  /** The foreign primitives the adapter calls. */
  datatype Primitives = Primitives(
    /** AES-GCM `encrypt_in_place`: key, nonce, additional data, plaintext. */
    seal: (seq<byte>, seq<byte>, seq<byte>, seq<byte>) -> Option<seq<byte>>,
    /** AES-GCM `decrypt_in_place`: key, nonce, additional data, ciphertext. */
    open: (seq<byte>, seq<byte>, seq<byte>, seq<byte>) -> Option<seq<byte>>,
    /** rustls `Nonce::new(iv, seq)`. */
    nonce: (seq<byte>, u64) -> seq<byte>,
    /** rustls `make_tls13_aad(len)`. */
    aad: nat -> seq<byte>,
    /** rustls `into_tls13_unpadded_message`, applied to the opened inner plaintext. */
    unpad: seq<byte> -> Result<PlainMessage, RustlsError>)

  /** AES-GCM adds a 16-byte tag, and opening with the same key, nonce and data undoes sealing. */
  ghost predicate SealOpens(p: Primitives) {
    forall k, n, a, m :: p.seal(k, n, a, m).Some? ==>
      |p.seal(k, n, a, m).value| == |m| + AES_GCM_OVERHEAD &&
      p.open(k, n, a, p.seal(k, n, a, m).value) == Some(m)
  }

  /**
   * Unpadding a TLSInnerPlaintext with no zero padding returns its trailing
   * non-zero content type and the content before it, as a TLS 1.3 message.
   */
  ghost predicate UnpadsTrailer(p: Primitives) {
    forall content: seq<byte>, typ: byte {:trigger p.unpad(content + [typ])} ::
      typ != 0 && |content| <= MAX_FRAGMENT ==>
      p.unpad(content + [typ]) == Ok(PlainMessage(typ, TLS_V1_3, content))
  }

  /** `Tls13Cipher`: the AES-128-GCM key and the traffic IV. */
  datatype Tls13Cipher = Tls13Cipher(key: seq<byte>, iv: seq<byte>)

  /** The key material rustls exports for kernel-TLS style use. */
  datatype ConnectionTrafficSecrets = Aes128Gcm(key: seq<byte>, iv: seq<byte>)

  /** `Aes128Gcm::key_len`. */
  function KeyLen(): (n: nat)
    ensures n == AES128_KEY_SIZE
  {
    AES128_KEY_SIZE
  }

  /** `Aes128Gcm::extract_keys`: never unsupported, key and IV passed through. */
  function ExtractKeys(key: seq<byte>, iv: seq<byte>): (r: Result<ConnectionTrafficSecrets, ()>)
    ensures r.Ok? && r.value.Aes128Gcm? && r.value.key == key && r.value.iv == iv
  {
    Ok(Aes128Gcm(key, iv))
  }

  /**
   * `Aes128Gcm::encrypter` / `decrypter`: `new_from_slice(key).unwrap()`
   * panics (None here) unless the key has the AES-128 size.
   */
  function NewCipher(key: seq<byte>, iv: seq<byte>): (c: Option<Tls13Cipher>)
    ensures c.Some? <==> |key| == KeyLen()
    ensures c.Some? ==> c.value.key == key && c.value.iv == iv
  {
    if |key| == AES128_KEY_SIZE then Some(Tls13Cipher(key, iv)) else None
  }

  /** `encrypted_payload_len`: payload, content type byte and tag. */
  function EncryptedPayloadLen(payloadLen: nat): (n: nat)
    ensures n == payloadLen + AEAD_OVERHEAD
  {
    payloadLen + AES_GCM_OVERHEAD + 1
  }

  /** TLSInnerPlaintext without padding: the payload, then its content type. */
  function InnerPlaintext(msg: PlainMessage): (s: seq<byte>)
    ensures |s| == |msg.payload| + CONTENT_TYPE
    ensures s[..|msg.payload|] == msg.payload && s[|msg.payload|] == msg.typ
  {
    msg.payload + [msg.typ]
  }

  /** What `encrypt(msg, seq)` returns. */
  function Sealed(p: Primitives, c: Tls13Cipher, msg: PlainMessage, seqNum: u64): (r: Result<OpaqueMessage, RustlsError>)
    ensures r.Ok? ==> r.value.typ == APPLICATION_DATA && r.value.version == TLS_V1_2
    ensures r.Err? ==> r.error == EncryptFailed
    ensures SealOpens(p) && r.Ok? ==> |r.value.payload| == EncryptedPayloadLen(|msg.payload|)
  {
    var totalLen := EncryptedPayloadLen(|msg.payload|);
    var sealed := p.seal(c.key, p.nonce(c.iv, seqNum), p.aad(totalLen), InnerPlaintext(msg));
    if sealed.None? then Err(EncryptFailed)
    else Ok(OpaqueMessage(APPLICATION_DATA, TLS_V1_2, sealed.value))
  }

  /** What `decrypt(msg, seq)` returns. */
  function Opened(p: Primitives, c: Tls13Cipher, msg: OpaqueMessage, seqNum: u64): (r: Result<PlainMessage, RustlsError>)
    ensures p.open(c.key, p.nonce(c.iv, seqNum), p.aad(|msg.payload|), msg.payload).None? ==> r == Err(DecryptFailed)
    ensures p.open(c.key, p.nonce(c.iv, seqNum), p.aad(|msg.payload|), msg.payload).Some? ==>
      r == p.unpad(p.open(c.key, p.nonce(c.iv, seqNum), p.aad(|msg.payload|), msg.payload).value)
  {
    var plain := p.open(c.key, p.nonce(c.iv, seqNum), p.aad(|msg.payload|), msg.payload);
    if plain.None? then Err(DecryptFailed) else p.unpad(plain.value)
  }

  /** `Tls13Cipher::encrypt`: build the inner plaintext, then seal it. */
  method Encrypt(p: Primitives, c: Tls13Cipher, msg: PlainMessage, seqNum: u64) returns (r: Result<OpaqueMessage, RustlsError>)
    ensures r == Sealed(p, c, msg, seqNum)
    ensures r.Ok? ==> r.value.typ == APPLICATION_DATA && r.value.version == TLS_V1_2
  {
    var totalLen := EncryptedPayloadLen(|msg.payload|);
    var payload: seq<byte> := [];
    payload := payload + msg.payload;
    payload := payload + [msg.typ];
    assert payload == InnerPlaintext(msg);
    var nonce := p.nonce(c.iv, seqNum);
    var aad := p.aad(totalLen);
    var sealed := p.seal(c.key, nonce, aad, payload);
    if sealed.None? {
      return Err(EncryptFailed);
    }
    return Ok(OpaqueMessage(APPLICATION_DATA, TLS_V1_2, sealed.value));
  }

  /** `Tls13Cipher::decrypt`: open the ciphertext, then strip the inner content type. */
  method Decrypt(p: Primitives, c: Tls13Cipher, msg: OpaqueMessage, seqNum: u64) returns (r: Result<PlainMessage, RustlsError>)
    ensures r == Opened(p, c, msg, seqNum)
  {
    var payload := msg.payload;
    var nonce := p.nonce(c.iv, seqNum);
    var aad := p.aad(|payload|);
    var plain := p.open(c.key, nonce, aad, payload);
    if plain.None? {
      return Err(DecryptFailed);
    }
    r := p.unpad(plain.value);
  }

  /**
   * Round trip: with the same cipher and sequence number, decrypting what
   * encrypt produced recovers the content type and the payload.
   */
  lemma EncryptThenDecrypt(p: Primitives, c: Tls13Cipher, msg: PlainMessage, seqNum: u64)
    requires SealOpens(p) && UnpadsTrailer(p)
    requires msg.typ != 0 && |msg.payload| <= MAX_FRAGMENT
    requires Sealed(p, c, msg, seqNum).Ok?
    ensures Opened(p, c, Sealed(p, c, msg, seqNum).value, seqNum) == Ok(PlainMessage(msg.typ, TLS_V1_3, msg.payload))
  {
    var inner := InnerPlaintext(msg);
    var aad := p.aad(EncryptedPayloadLen(|msg.payload|));
    var ct := p.seal(c.key, p.nonce(c.iv, seqNum), aad, inner).value;
    assert |ct| == |msg.payload| + AEAD_OVERHEAD;
    assert p.open(c.key, p.nonce(c.iv, seqNum), aad, ct) == Some(inner);
    assert p.unpad(msg.payload + [msg.typ]) == Ok(PlainMessage(msg.typ, TLS_V1_3, msg.payload));
  }

  /** A failed open reaches the connection as `DecryptError`. */
  lemma FailedOpenIsDecryptError(p: Primitives, c: Tls13Cipher, msg: OpaqueMessage, seqNum: u64)
    requires p.open(c.key, p.nonce(c.iv, seqNum), p.aad(|msg.payload|), msg.payload).None?
    ensures FromRustls(Opened(p, c, msg, seqNum).error) == TlsError.DecryptError
  {
  }
}
