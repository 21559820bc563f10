/**
 * Text primitives the HTTP layer relies on, over bytes: ASCII literals,
 * `format!("{}", n)` for unsigned integers, `str::parse::<usize>`,
 * `str::from_utf8` validity, `eq_ignore_ascii_case`, and the field-line
 * layout of section 5 of RFC 9112 shared by requests and responses.
 */
module HttpText {
  import opened Base

  /** The bytes of an ASCII literal. */
  function Ascii(s: string): (b: seq<byte>)
    requires forall i :: 0 <= i < |s| ==> s[i] as int < 128
    ensures |b| == |s| && forall i :: 0 <= i < |s| ==> b[i] == s[i] as int
  {
    seq(|s|, i requires 0 <= i < |s| => s[i] as int)
  }

  const CRLF: seq<byte> := [13, 10]
  const SP: seq<byte> := [32]
  const COLON_SP: seq<byte> := [58, 32]
  const PLUS: byte := 43
  const ZERO: byte := 48
  /** The exact field name the serialisers test for, with this spelling. */
  const CONTENT_LENGTH: seq<byte> := Ascii("Content-Length")

  predicate IsDigit(b: byte) {
    ZERO <= b <= ZERO + 9
  }

  predicate AllDigits(s: seq<byte>) {
    forall i :: 0 <= i < |s| ==> IsDigit(s[i])
  }

  /** `format!("{}", n)`: the shortest decimal numeral of `n`. */
  function Decimal(n: nat): (s: seq<byte>)
    ensures |s| >= 1 && AllDigits(s)
    ensures |s| > 1 ==> s[0] != ZERO
    decreases n
  {
    if n < 10 then [ZERO + n] else Decimal(n / 10) + [ZERO + n % 10]
  }

  /** The value of a string of decimal digits. */
  function DigitsValue(s: seq<byte>): nat
    requires AllDigits(s)
  {
    if |s| == 0 then 0 else DigitsValue(s[..|s| - 1]) * 10 + (s[|s| - 1] - ZERO)
  }

  /**
   * `str::parse::<usize>`: an optional `+`, then one or more decimal digits
   * whose value fits a `usize`; anything else is an error.
   */
  function ParseUsize(s: seq<byte>): (r: Option<nat>)
    ensures r.Some? ==> r.value <= USIZE_MAX
    ensures r.Some? ==> |s| >= 1 && (IsDigit(s[0]) || s[0] == PLUS)
  {
    var digits := if |s| > 0 && s[0] == PLUS then s[1..] else s;
    if |digits| == 0 || !AllDigits(digits) then None
    else if DigitsValue(digits) > USIZE_MAX then None
    else Some(DigitsValue(digits))
  }

  lemma {:induction false} DecimalValue(n: nat)
    ensures DigitsValue(Decimal(n)) == n
    decreases n
  {
    if n >= 10 {
      DecimalValue(n / 10);
      var s := Decimal(n);
      assert s[..|s| - 1] == Decimal(n / 10);
    }
  }

  /** Round trip: a `usize` formatted in decimal parses back to itself. */
  lemma ParseDecimal(n: nat)
    requires n <= USIZE_MAX
    ensures ParseUsize(Decimal(n)) == Some(n)
  {
    DecimalValue(n);
  }

  /** Formatting is injective: distinct numbers have distinct numerals. */
  lemma DecimalInjective(m: nat, n: nat)
    requires Decimal(m) == Decimal(n)
    ensures m == n
  {
    DecimalValue(m);
    DecimalValue(n);
  }

  /** A UTF-8 continuation byte, 10xxxxxx. */
  predicate IsCont(b: byte) {
    0x80 <= b <= 0xBF
  }

  /**
   * The length of the well-formed UTF-8 sequence at the front of `s`
   * (section 4 of RFC 3629), or 0 when there is none.
   */
  function Utf8SeqLen(s: seq<byte>): (n: nat)
    requires |s| > 0
    ensures n <= 4 && n <= |s|
  {
    var b := s[0];
    if b < 0x80 then 1
    else if 0xC2 <= b <= 0xDF then
      if |s| >= 2 && IsCont(s[1]) then 2 else 0
    else if b == 0xE0 then
      if |s| >= 3 && 0xA0 <= s[1] <= 0xBF && IsCont(s[2]) then 3 else 0
    else if (0xE1 <= b <= 0xEC) || (0xEE <= b <= 0xEF) then
      if |s| >= 3 && IsCont(s[1]) && IsCont(s[2]) then 3 else 0
    else if b == 0xED then
      if |s| >= 3 && 0x80 <= s[1] <= 0x9F && IsCont(s[2]) then 3 else 0
    else if b == 0xF0 then
      if |s| >= 4 && 0x90 <= s[1] <= 0xBF && IsCont(s[2]) && IsCont(s[3]) then 4 else 0
    else if 0xF1 <= b <= 0xF3 then
      if |s| >= 4 && IsCont(s[1]) && IsCont(s[2]) && IsCont(s[3]) then 4 else 0
    else if b == 0xF4 then
      if |s| >= 4 && 0x80 <= s[1] <= 0x8F && IsCont(s[2]) && IsCont(s[3]) then 4 else 0
    else 0
  }

  /** `str::from_utf8(s).is_ok()`. */
  predicate ValidUtf8(s: seq<byte>)
    decreases |s|
  {
    |s| == 0 || (Utf8SeqLen(s) > 0 && ValidUtf8(s[Utf8SeqLen(s)..]))
  }

  predicate IsAscii(s: seq<byte>) {
    forall i :: 0 <= i < |s| ==> s[i] < 0x80
  }

  /** ASCII text, decimal numerals included, is valid UTF-8. */
  lemma {:induction false} AsciiIsUtf8(s: seq<byte>)
    requires IsAscii(s)
    ensures ValidUtf8(s)
    decreases |s|
  {
    if |s| > 0 {
      assert Utf8SeqLen(s) == 1;
      AsciiIsUtf8(s[1..]);
    }
  }

  /** `u8::to_ascii_lowercase`. */
  function AsciiLower(b: byte): (l: byte)
    ensures 0x41 <= b <= 0x5A ==> l == b + 32
    ensures !(0x41 <= b <= 0x5A) ==> l == b
  {
    if 0x41 <= b <= 0x5A then b + 32 else b
  }

  /** `str::eq_ignore_ascii_case`. */
  predicate EqIgnoreAsciiCase(a: seq<byte>, b: seq<byte>) {
    |a| == |b| && forall i :: 0 <= i < |a| ==> AsciiLower(a[i]) == AsciiLower(b[i])
  }

  /** `"{name}: {value}\r\n"`. */
  function FieldLine(name: seq<byte>, value: seq<byte>): (line: seq<byte>)
    ensures |line| == |name| + |value| + 4
    ensures line[..|name|] == name && line[|line| - 2..] == CRLF
  {
    name + COLON_SP + value + CRLF
  }

  /** A field line as a (name, value) pair, before it is rendered. */
  datatype Header = Header(name: seq<byte>, value: seq<byte>)

  /**
   * `order` lists every key of `headers` once: one possible iteration order of
   * the hash map, which the model leaves open.
   */
  ghost predicate Enumerates(order: seq<seq<byte>>, headers: map<seq<byte>, seq<byte>>) {
    (forall k :: k in headers <==> k in order)
    && (forall i, j :: 0 <= i < j < |order| ==> order[i] != order[j])
  }

  /** The header map's entries, in the iteration order `order`. */
  function Entries(headers: map<seq<byte>, seq<byte>>, order: seq<seq<byte>>): (fs: seq<Header>)
    requires forall k :: k in order ==> k in headers
    ensures |fs| == |order|
    ensures forall i :: 0 <= i < |order| ==> fs[i] == Header(order[i], headers[order[i]])
  {
    seq(|order|, i requires 0 <= i < |order| => Header(order[i], headers[order[i]]))
  }

  /**
   * The serialisers add a Content-Length field (section 8.6 of RFC 9110)
   * only for a non-empty body, and only when no key is spelt exactly
   * "Content-Length": the test is case-sensitive.
   */
  predicate AddsContentLength(headers: map<seq<byte>, seq<byte>>, body: seq<byte>) {
    |body| > 0 && CONTENT_LENGTH !in headers
  }

  /** The fields a serialiser emits: the map's entries, then the added Content-Length. */
  function EmittedFields(headers: map<seq<byte>, seq<byte>>, order: seq<seq<byte>>, body: seq<byte>): (fs: seq<Header>)
    requires forall k :: k in order ==> k in headers
    ensures |fs| >= |order| && fs[..|order|] == Entries(headers, order)
    ensures |fs| == |order| + 1 <==> AddsContentLength(headers, body)
    ensures !AddsContentLength(headers, body) ==> |fs| == |order|
    ensures AddsContentLength(headers, body) ==> fs[|order|] == Header(CONTENT_LENGTH, Decimal(|body|))
  {
    Entries(headers, order)
    + (if AddsContentLength(headers, body) then [Header(CONTENT_LENGTH, Decimal(|body|))] else [])
  }

  /** The rendered field lines, one `FieldLine` per field, in order. */
  function FieldLines(fs: seq<Header>): (text: seq<byte>)
    ensures |fs| > 0 ==> |text| >= 4 && text[|text| - 2..] == CRLF
  {
    if |fs| == 0 then [] else FieldLines(fs[..|fs| - 1]) + FieldLine(fs[|fs| - 1].name, fs[|fs| - 1].value)
  }

  /** Field lines, then the empty line that ends the header section (section 2.1 of RFC 9112). */
  function HeaderSection(headers: map<seq<byte>, seq<byte>>, order: seq<seq<byte>>, body: seq<byte>): (text: seq<byte>)
    requires forall k :: k in order ==> k in headers
    ensures |text| >= 2 && text[|text| - 2..] == CRLF
    ensures |order| + (if AddsContentLength(headers, body) then 1 else 0) > 0 ==> |text| >= 4 && text[|text| - 4..] == CRLF + CRLF
  {
    FieldLines(EmittedFields(headers, order, body)) + CRLF
  }

  /**
   * A message laid out as start line, header section and body: the start
   * line is its prefix, the body its suffix, and the section's closing CRLF
   * sits right before the body.
   */
  lemma MessageLayout(line: seq<byte>, section: seq<byte>, body: seq<byte>)
    requires |section| >= 2 && section[|section| - 2..] == CRLF
    ensures var bytes := line + section + body;
      var n := |bytes| - |body|;
      && |line| + 2 <= n
      && bytes[..|line|] == line
      && bytes[n..] == body
      && bytes[n - 2..n] == CRLF
  {
    var bytes := line + section + body;
    var n := |line| + |section|;
    assert bytes[..|line|] == line;
    assert bytes[n..] == body;
    assert bytes[n - 2..n] == section[|section| - 2..];
  }

  /**
   * Every entry of the map is emitted exactly once, with its own value, and
   * no field name (compared exactly) is emitted twice: the added
   * Content-Length never duplicates a key spelt "Content-Length".
   */
  lemma EmittedFieldsExactlyOnce(headers: map<seq<byte>, seq<byte>>, order: seq<seq<byte>>, body: seq<byte>)
    requires Enumerates(order, headers)
    ensures var fs := EmittedFields(headers, order, body);
      (forall i, j :: 0 <= i < j < |fs| ==> fs[i].name != fs[j].name)
      && (forall k :: k in headers ==> exists i :: 0 <= i < |fs| && fs[i] == Header(k, headers[k]))
      && (forall i :: 0 <= i < |fs| ==>
            (fs[i].name in headers && fs[i].value == headers[fs[i].name])
            || (fs[i] == Header(CONTENT_LENGTH, Decimal(|body|)) && AddsContentLength(headers, body)))
  {
    var fs := EmittedFields(headers, order, body);
    forall k | k in headers
      ensures exists i :: 0 <= i < |fs| && fs[i] == Header(k, headers[k])
    {
      var i :| 0 <= i < |order| && order[i] == k;
      assert fs[i] == fs[..|order|][i];
    }
    forall i | 0 <= i < |fs|
      ensures (fs[i].name in headers && fs[i].value == headers[fs[i].name])
              || (fs[i] == Header(CONTENT_LENGTH, Decimal(|body|)) && AddsContentLength(headers, body))
    {
      if i < |order| {
        assert fs[i] == fs[..|order|][i];
      }
    }
    forall i, j | 0 <= i < j < |fs|
      ensures fs[i].name != fs[j].name
    {
      assert fs[i] == fs[..|order|][i];
      if j < |order| {
        assert fs[j] == fs[..|order|][j];
      }
    }
  }

  /**
   * The header part of `to_bytes`: one field line per map entry in the
   * iteration order, the Content-Length line when it is added, the empty line.
   */
  method RenderHeaderSection(headers: map<seq<byte>, seq<byte>>, order: seq<seq<byte>>, body: seq<byte>)
    returns (text: seq<byte>)
    requires Enumerates(order, headers)
    ensures text == HeaderSection(headers, order, body)
  {
    text := [];
    for i := 0 to |order|
      invariant text == FieldLines(Entries(headers, order[..i]))
    {
      var key := order[i];
      assert Entries(headers, order[..i + 1])[..i] == Entries(headers, order[..i]);
      text := text + FieldLine(key, headers[key]);
    }
    assert order[..|order|] == order;
    var fs := EmittedFields(headers, order, body);
    var contentLength := |body|;
    if contentLength > 0 && CONTENT_LENGTH !in headers {
      assert fs[..|fs| - 1] == Entries(headers, order);
      text := text + FieldLine(CONTENT_LENGTH, Decimal(contentLength));
    } else {
      assert fs == fs[..|order|];
    }
    text := text + CRLF;
  }
}
