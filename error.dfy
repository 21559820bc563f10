/**
 * The error taxonomy of the TLS layer (kernel/src/tls/error.rs) and its
 * translations from the foreign library's errors.
 */
module Error {

  /** The HTTP layer's errors (kernel/src/tls/http/error.rs). */
  datatype HttpError = GenericError | MissingHeader(name: string)

  /** Local error kinds. `Http` is the variant https_peer.rs wraps HTTP errors in. */
  datatype TlsError =
    | HandshakeFailed
    | InvalidMessage
    | InvalidCertificate
    | EncryptError
    | DecryptError
    | NoCertificates
    | UnsupportedNameType
    | GenericError
    | ConnectionClosed
    | InvalidDnsName
    | EncodeError
    | EarlyDataError
    | FailedToGetRandomBytes
    | MaxIterationsReached
    | HandshakeNotComplete
    | UnexpectedState
    | BufferTooSmall
    | IncompleteRead
    | PeerClosed
    | RequestAlreadySent
    | ConnectionAlreadyClosed
    | Http(httpError: HttpError)

  /**
   * The variants of the foreign library's error enum that the translation
   * distinguishes; payloads play no part in it. `Unlisted` stands for every
   * variant the translation does not name (the enum is non-exhaustive).
   */
  datatype RustlsError =
    | InappropriateMessage
    | InappropriateHandshakeMessage
    | InvalidEncryptedClientHello
    | InvalidMessageError
    | NoCertificatesPresented
    | UnsupportedNameTypeError
    | DecryptFailed
    | EncryptFailed
    | PeerIncompatible
    | PeerMisbehaved
    | HandshakeIncomplete
    | InvalidCertificateError
    | InvalidCertRevocationList
    | General
    | FailedToGetCurrentTime
    | RandomBytesUnavailable
    | PeerSentOversizedRecord
    | NoApplicationProtocol
    | BadMaxFragmentSize
    | AlertReceived
    | InconsistentKeys
    | Other
    | Unlisted

  /** The errors the unbuffered API's `encode` and `encrypt` report. */
  datatype EncodeFailure = EncodeInsufficientSize(requiredSize: nat) | AlreadyEncoded
  datatype EncryptFailure = EncryptInsufficientSize(requiredSize: nat) | EncryptExhausted

  /** Kinds that only this crate's own code raises, never a foreign error. */
  predicate IsLocalKind(e: TlsError) {
    e.BufferTooSmall? || e.IncompleteRead? || e.UnexpectedState? || e.PeerClosed?
    || e.MaxIterationsReached? || e.HandshakeNotComplete? || e.RequestAlreadySent?
    || e.ConnectionAlreadyClosed? || e.Http?
  }

  /** Translation of a foreign library error (`From<rustls::Error>`). */
  function FromRustls(err: RustlsError): (r: TlsError)
    ensures !IsLocalKind(r)
    ensures r == DecryptError <==> err == DecryptFailed
    ensures r == EncryptError <==> err == EncryptFailed
    ensures r == ConnectionClosed <==> err == AlertReceived
  {
    match err
    case InappropriateMessage => InvalidMessage
    case InappropriateHandshakeMessage => HandshakeFailed
    case InvalidEncryptedClientHello => HandshakeFailed
    case InvalidMessageError => InvalidMessage
    case NoCertificatesPresented => NoCertificates
    case UnsupportedNameTypeError => UnsupportedNameType
    case DecryptFailed => DecryptError
    case EncryptFailed => EncryptError
    case PeerIncompatible => HandshakeFailed
    case PeerMisbehaved => HandshakeFailed
    case HandshakeIncomplete => HandshakeFailed
    case InvalidCertificateError => InvalidCertificate
    case InvalidCertRevocationList => InvalidCertificate
    case General => TlsError.GenericError
    case FailedToGetCurrentTime => TlsError.GenericError
    case RandomBytesUnavailable => FailedToGetRandomBytes
    case PeerSentOversizedRecord => HandshakeFailed
    case NoApplicationProtocol => HandshakeFailed
    case BadMaxFragmentSize => HandshakeFailed
    case AlertReceived => ConnectionClosed
    case InconsistentKeys => HandshakeFailed
    case Other => TlsError.GenericError
    case Unlisted => TlsError.GenericError
  }

  /** `From<InvalidDnsNameError>`: every malformed server name is `InvalidDnsName`. */
  function FromInvalidDnsName(): (r: TlsError)
    ensures r.InvalidDnsName?
  {
    InvalidDnsName
  }

  /** `From<unbuffered::EncodeError>`: the cause is not preserved. */
  function FromEncodeFailure(err: EncodeFailure): (r: TlsError)
    ensures !IsLocalKind(r) && r.EncodeError?
  {
    EncodeError
  }

  /** `From<unbuffered::EncryptError>`: the cause is not preserved. */
  function FromEncryptFailure(err: EncryptFailure): (r: TlsError)
    ensures !IsLocalKind(r) && r.EncryptError?
  {
    EncryptError
  }

  /**
   * A failed record protection is reported the same way whether the cipher or
   * the unbuffered API's encrypt step detects it.
   */
  lemma EncryptFailuresAgree(err: EncryptFailure)
    ensures FromEncryptFailure(err) == FromRustls(EncryptFailed)
  {
  }

  /** The peer-side handshake failures all become `HandshakeFailed`, never `HandshakeNotComplete`. */
  lemma HandshakeFailuresCollapse(err: RustlsError)
    ensures FromRustls(err) == HandshakeFailed <==>
      err in {InappropriateHandshakeMessage, InvalidEncryptedClientHello, PeerIncompatible,
              PeerMisbehaved, HandshakeIncomplete, PeerSentOversizedRecord,
              NoApplicationProtocol, BadMaxFragmentSize, InconsistentKeys}
    ensures FromRustls(err) != HandshakeNotComplete
  {
  }

  /** Certificate and revocation-list problems are the only sources of `InvalidCertificate`. */
  lemma CertificateErrorsMap(err: RustlsError)
    ensures FromRustls(err) == InvalidCertificate <==>
      err == InvalidCertificateError || err == InvalidCertRevocationList
  {
  }

  /** `General`, `FailedToGetCurrentTime`, `Other` and every unlisted variant are generic. */
  lemma GenericFallback(err: RustlsError)
    ensures FromRustls(err) == TlsError.GenericError <==>
      err in {General, FailedToGetCurrentTime, Other, Unlisted}
  {
  }
}
