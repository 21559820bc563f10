/**
 * The key logger (kernel/src/tls/key_logger.rs): TLS secrets are logged as
 * one line `label client_random secret`, each byte string written as
 * lowercase hexadecimal, two digits per byte, high nibble first.
 */
module KeyLogger {
  import opened Base

  /** The text the logger puts in front of every line. */
  const KEYLOG_PREFIX: string := "KeyLog: "

  /** A digit of `{:02x}`: `0`-`9`, then lowercase `a`-`f`. */
  function HexDigit(n: nat): (c: char)
    requires n < 16
    ensures IsLowerHex(c) && DigitValue(c) == Some(n)
  {
    if n < 10 then (48 + n) as char else (97 + n - 10) as char
  }

  predicate IsLowerHex(c: char) {
    ('0' <= c <= '9') || ('a' <= c <= 'f')
  }

  /** The value of a lowercase hexadecimal digit; anything else is not one. */
  function DigitValue(c: char): (r: Option<nat>)
    ensures r.Some? <==> IsLowerHex(c)
    ensures r.Some? ==> r.value < 16
  {
    if '0' <= c <= '9' then Some(c as nat - 48)
    else if 'a' <= c <= 'f' then Some(c as nat - 97 + 10)
    else None
  }

  /** `format!("{:02x}", b)`: two digits, zero-padded, high nibble first. */
  function HexPair(b: byte): (p: string)
    ensures |p| == 2 && IsLowerHex(p[0]) && IsLowerHex(p[1])
    ensures DigitValue(p[0]).value * 16 + DigitValue(p[1]).value == b
  {
    [HexDigit(b / 16), HexDigit(b % 16)]
  }

  /** The byte two hexadecimal digits stand for, if they are digits. */
  function PairValue(p: string): (r: Option<byte>)
    requires |p| == 2
  {
    match (DigitValue(p[0]), DigitValue(p[1]))
    case (Some(hi), Some(lo)) => Some(hi * 16 + lo)
    case _ => None
  }

  /** The specification of `hex`: the pairs of every byte, in order. */
  function HexOf(bytes: seq<byte>): string
  {
    if |bytes| == 0 then [] else HexOf(bytes[..|bytes| - 1]) + HexPair(bytes[|bytes| - 1])
  }

  /**
   * The inner `hex` of `MyKeyLogger::log`: a string grown by one pair per
   * byte in a loop.
   */
  method Hex(bytes: seq<byte>) returns (s: string)
    ensures s == HexOf(bytes)
  {
    s := [];
    for i := 0 to |bytes|
      invariant s == HexOf(bytes[..i])
    {
      assert bytes[..i + 1][..i] == bytes[..i];
      s := s + HexPair(bytes[i]);
    }
    assert bytes[..|bytes|] == bytes;
  }

  /** The decoder that inverts `hex`: an even number of lowercase hexadecimal digits. */
  function UnHex(s: string): (r: Option<seq<byte>>)
    ensures r.Some? ==> 2 * |r.value| == |s|
  {
    if |s| == 0 then Some([])
    else if |s| == 1 then None
    else
      match (UnHex(s[..|s| - 2]), PairValue(s[|s| - 2..]))
      case (Some(front), Some(b)) => Some(front + [b])
      case _ => None
  }

  /** `hex` writes two characters per byte, and nothing for no bytes. */
  lemma {:induction false} HexLength(bytes: seq<byte>)
    ensures |HexOf(bytes)| == 2 * |bytes|
    ensures bytes == [] ==> HexOf(bytes) == []
  {
    if |bytes| > 0 {
      HexLength(bytes[..|bytes| - 1]);
    }
  }

  /** Every character `hex` writes is a lowercase hexadecimal digit. */
  lemma {:induction false} HexIsLowerHex(bytes: seq<byte>)
    ensures forall i :: 0 <= i < |HexOf(bytes)| ==> IsLowerHex(HexOf(bytes)[i])
  {
    if |bytes| > 0 {
      HexIsLowerHex(bytes[..|bytes| - 1]);
    }
  }

  /** Hexadecimal of a concatenation is the concatenation of the hexadecimals. */
  lemma {:induction false} HexAppend(a: seq<byte>, b: seq<byte>)
    ensures HexOf(a + b) == HexOf(a) + HexOf(b)
    decreases |b|
  {
    if |b| > 0 {
      var b' := b[..|b| - 1];
      assert (a + b)[..|a + b| - 1] == a + b';
      HexAppend(a, b');
    } else {
      assert a + b == a;
    }
  }

  /** Byte `i` is written at characters `2i` and `2i + 1`, high nibble first. */
  lemma {:induction false} HexPairAt(bytes: seq<byte>, i: nat)
    requires i < |bytes|
    ensures |HexOf(bytes)| == 2 * |bytes|
    ensures HexOf(bytes)[2 * i..2 * i + 2] == HexPair(bytes[i])
  {
    var front := bytes[..|bytes| - 1];
    HexLength(front);
    var s := HexOf(bytes);
    assert s == HexOf(front) + HexPair(bytes[|bytes| - 1]);
    if i < |bytes| - 1 {
      HexPairAt(front, i);
      assert s[2 * i..2 * i + 2] == HexOf(front)[2 * i..2 * i + 2];
    } else {
      assert s[2 * i..2 * i + 2] == HexPair(bytes[|bytes| - 1]);
    }
  }

  /** Two digits written for a byte read back as that byte. */
  lemma PairRoundTrip(b: byte)
    ensures PairValue(HexPair(b)) == Some(b)
  {
  }

  /** Round trip: decoding what `hex` wrote gives back the bytes. */
  lemma {:induction false} UnHexHex(bytes: seq<byte>)
    ensures UnHex(HexOf(bytes)) == Some(bytes)
  {
    if |bytes| > 0 {
      var front := bytes[..|bytes| - 1];
      var last := bytes[|bytes| - 1];
      var s := HexOf(bytes);
      assert s == HexOf(front) + HexPair(last);
      HexLength(bytes);
      assert s[..|s| - 2] == HexOf(front);
      assert s[|s| - 2..] == HexPair(last);
      UnHexHex(front);
      PairRoundTrip(last);
      assert front + [last] == bytes;
    }
  }

  /** `hex` is injective: distinct byte strings are logged differently. */
  lemma HexInjective(a: seq<byte>, b: seq<byte>)
    requires HexOf(a) == HexOf(b)
    ensures a == b
  {
    UnHexHex(a);
    UnHexHex(b);
  }

  /** The message of `MyKeyLogger::log`: label, client random and secret, separated by single spaces. */
  function LogLine(logLabel: string, clientRandom: seq<byte>, secret: seq<byte>): string {
    logLabel + " " + HexOf(clientRandom) + " " + HexOf(secret)
  }

  /**
   * `MyKeyLogger::log`: the text handed to the logger, `KeyLog: ` and the
   * message.
   */
  method Log(logLabel: string, clientRandom: seq<byte>, secret: seq<byte>) returns (record: string)
    ensures record == KEYLOG_PREFIX + LogLine(logLabel, clientRandom, secret)
  {
    var clientRandomHex := Hex(clientRandom);
    var secretHex := Hex(secret);
    var msg := logLabel + " " + clientRandomHex + " " + secretHex;
    record := KEYLOG_PREFIX + msg;
  }

  /** Where the three space-separated fields of a line begin and end. */
  lemma FieldSlices(first: string, second: string, third: string)
    ensures var line := first + " " + second + " " + third;
      var n := |first|;
      var m := |second|;
      && |line| == n + m + 2 + |third|
      && line[..n] == first
      && line[n] == ' '
      && line[n + 1..n + 1 + m] == second
      && line[n + 1 + m] == ' '
      && line[n + 2 + m..] == third
  {
    var line := first + " " + second + " " + third;
    var n := |first|;
    var m := |second|;
    assert line[n + 1..n + 1 + m] == second;
    assert line[n + 2 + m..] == third;
  }

  /**
   * The message splits back into its parts: the label, a space, the client
   * random decoded from its `2n` digits, a space, and the secret decoded
   * from the rest.
   */
  lemma LogLineParts(logLabel: string, clientRandom: seq<byte>, secret: seq<byte>)
    ensures var line := LogLine(logLabel, clientRandom, secret);
      var n := |logLabel|;
      var m := 2 * |clientRandom|;
      && |line| == n + m + 2 + 2 * |secret|
      && line[..n] == logLabel
      && line[n] == ' '
      && UnHex(line[n + 1..n + 1 + m]) == Some(clientRandom)
      && line[n + 1 + m] == ' '
      && UnHex(line[n + 2 + m..]) == Some(secret)
  {
    HexLength(clientRandom);
    HexLength(secret);
    UnHexHex(clientRandom);
    UnHexHex(secret);
    FieldSlices(logLabel, HexOf(clientRandom), HexOf(secret));
  }
}
