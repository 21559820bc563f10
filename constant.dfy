/**
 * Constants of the TLS record layer (kernel/src/tls/constant.rs) and the
 * record header they describe (section 5.1 of RFC 8446:
 * type(1) || legacy_record_version(2) || length(2)).
 */
module Constant {
  import opened Base

  const HEADER_LEN: nat := 5
  /** Position of the low byte of the length field inside the header. */
  const FIRST_LEN_BYTE_POS: nat := 4
  /** Position of the high byte of the length field inside the header. */
  const SECOND_LEN_BYTE_POS: nat := 3
  /** Size of the TLS 1.3 inner content type trailer. */
  const CONTENT_TYPE: nat := 1
  /** The 16-byte AES-GCM tag plus the content type trailer. */
  const AEAD_OVERHEAD: nat := 16 + CONTENT_TYPE
  const IN_BUF_SIZE: nat := 16 * 1024 + AEAD_OVERHEAD + HEADER_LEN
  const OUT_BUF_SIZE: nat := 1024

  /** TLSPlaintext.fragment limit, 2^14 (section 5.1 of RFC 8446). */
  const MAX_FRAGMENT: nat := 16384
  /** TLSCiphertext.length limit, 2^14 + 256 (section 5.2 of RFC 8446). */
  const MAX_CIPHERTEXT: nat := 16384 + 256

  /** The 5-byte header of a record whose payload has `length` bytes. */
  function RecordHeader(typ: byte, versionHi: byte, versionLo: byte, length: nat): (h: seq<byte>)
    requires length < 0x1_0000
    ensures |h| == HEADER_LEN
  {
    [typ, versionHi, versionLo, length / 256, length % 256]
  }

  /** The big-endian length field of a header, read as constant.rs positions it. */
  function RecordLength(header: seq<byte>): (n: nat)
    requires |header| >= HEADER_LEN
    ensures n < 0x1_0000
  {
    (header[SECOND_LEN_BYTE_POS] as int) * 256 + header[FIRST_LEN_BYTE_POS] as int
  }

  /** The length field is big-endian: byte 3 is the high byte, byte 4 the low byte. */
  lemma LengthFieldIsBigEndian(typ: byte, versionHi: byte, versionLo: byte, length: nat)
    requires length < 0x1_0000
    ensures RecordLength(RecordHeader(typ, versionHi, versionLo, length)) == length
    ensures SECOND_LEN_BYTE_POS + 1 == FIRST_LEN_BYTE_POS == HEADER_LEN - 1
  {
  }

  /** Two headers whose length fields differ decode to different lengths. */
  lemma RecordLengthInjective(h1: seq<byte>, h2: seq<byte>)
    requires |h1| >= HEADER_LEN && |h2| >= HEADER_LEN
    requires RecordLength(h1) == RecordLength(h2)
    ensures h1[3] == h2[3] && h1[4] == h2[4]
  {
  }

  /** The sizes the record layer is built around. */
  lemma Sizes()
    ensures HEADER_LEN == 5 && AEAD_OVERHEAD == 17
    ensures IN_BUF_SIZE == 16406 && OUT_BUF_SIZE == 1024
    ensures IN_BUF_SIZE == MAX_FRAGMENT + AEAD_OVERHEAD + HEADER_LEN
    ensures IN_BUF_SIZE - HEADER_LEN < MAX_CIPHERTEXT
  {
  }
}
