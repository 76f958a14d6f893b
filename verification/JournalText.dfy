/** The journal's JSON lines: the exact text the store writes, and a parser for
    that text which shows that nothing is lost and that a line has no raw
    newline. */
module JournalText {
  import opened Bytes

  datatype Operation = SessionCreated | CapturePublished | ManifestPublished

  datatype Body = Body(sequence: nat, operation: Operation, relativePath: Bytes,
                       contentSha256: Bytes, previousSha256: Bytes)

  datatype Line = Line(body: Body, entrySha256: Bytes)

  const QUOTE: byte := 34
  const NEWLINE: byte := 10

  // ----- Numbers -----

  function Decimal(n: nat): (r: Bytes)
    ensures r != [] && forall i | 0 <= i < |r| :: IsDigit(r[i])
  {
    if n < 10 then [48 + n] else Decimal(n / 10) + [48 + n % 10]
  }

  function DecimalValue(s: Bytes): nat
    requires forall i | 0 <= i < |s| :: IsDigit(s[i])
  {
    if s == [] then 0
    else
      assert IsDigit(s[|s| - 1]);
      var digit: int := s[|s| - 1];
      10 * DecimalValue(s[..|s| - 1]) + (digit - 48)
  }

  lemma {:induction false} DecimalRoundTrip(n: nat)
    ensures DecimalValue(Decimal(n)) == n
  {
    if n >= 10 {
      DecimalRoundTrip(n / 10);
      assert Decimal(n)[..|Decimal(n)| - 1] == Decimal(n / 10);
    } else {
      assert Decimal(n)[..0] == [];
    }
  }

  function DigitCount(s: Bytes): (k: nat)
    ensures k <= |s| && forall i | 0 <= i < k :: IsDigit(s[i])
  {
    if s != [] && IsDigit(s[0]) then 1 + DigitCount(s[1..]) else 0
  }

  lemma {:induction false} DigitCountOf(digits: Bytes, rest: Bytes)
    requires forall i | 0 <= i < |digits| :: IsDigit(digits[i])
    requires rest != [] && !IsDigit(rest[0])
    ensures DigitCount(digits + rest) == |digits|
    decreases digits
  {
    if digits == [] {
      assert digits + rest == rest;
    } else {
      assert (digits + rest)[1..] == digits[1..] + rest;
      DigitCountOf(digits[1..], rest);
    }
  }

  // ----- Strings -----

  function HexDigit(n: nat): byte
    requires n < 16
  {
    if n < 10 then 48 + n else 87 + n
  }

  function HexValue(b: byte): (n: nat)
    requires IsLowerHex(b)
    ensures n < 16
  {
    var x: int := b;
    if IsDigit(b) then x - 48 else x - 87
  }

  /** The letter of a two-character escape, or 0. */
  function Letter(b: byte): byte {
    match b
    case 34 => 34
    case 92 => 92
    case 8 => 98
    case 9 => 116
    case 10 => 110
    case 12 => 102
    case 13 => 114
    case _ => 0
  }

  function Unletter(letter: byte): Option<byte> {
    match letter
    case 34 => Some(34)
    case 92 => Some(92)
    case 98 => Some(8)
    case 116 => Some(9)
    case 110 => Some(10)
    case 102 => Some(12)
    case 114 => Some(13)
    case _ => None
  }

  function EscapeByte(b: byte): (r: Bytes)
    ensures r != [] && NEWLINE !in r
  {
    var x: int := b;
    if Letter(b) != 0 then [92, Letter(b)]
    else if x < 32 then [92, 117, 48, 48, HexDigit(x / 16), HexDigit(x % 16)]
    else [b]
  }

  /** The characters of `s` escaped, then the closing quote, then `rest`. */
  function Quoted(s: Bytes, rest: Bytes): Bytes
    decreases s
  {
    if s == [] then [QUOTE] + rest else EscapeByte(s[0]) + Quoted(s[1..], rest)
  }

  /** The first character of a string's text: its value and its length. */
  function UnescapeFirst(s: Bytes): Option<(byte, nat)>
  {
    if s == [] || s[0] == QUOTE || s[0] < 32 then None
    else if s[0] != 92 then Some((s[0], 1))
    else if |s| < 2 then None
    else if s[1] != 117 then
      if Unletter(s[1]).Some? then Some((Unletter(s[1]).value, 2)) else None
    else if |s| >= 6 && s[2] == 48 && s[3] == 48 && IsLowerHex(s[4]) && IsLowerHex(s[5]) then
      Some((16 * HexValue(s[4]) + HexValue(s[5]), 6))
    else None
  }

  /** The string whose text starts `s`, and what follows its closing quote. */
  function Unquote(s: Bytes): Option<(Bytes, Bytes)>
    decreases |s|
  {
    if s == [] then None
    else if s[0] == QUOTE then Some(([], s[1..]))
    else
      var first := UnescapeFirst(s);
      if first.None? || first.value.1 > |s| || first.value.1 == 0 then None
      else
        var rest := Unquote(s[first.value.1..]);
        if rest.None? then None else Some(([first.value.0] + rest.value.0, rest.value.1))
  }

  lemma UnescapeEscape(b: byte, rest: Bytes)
    ensures UnescapeFirst(EscapeByte(b) + rest) == Some((b, |EscapeByte(b)|))
    ensures EscapeByte(b)[0] != QUOTE
  {
    var e := EscapeByte(b);
    var s := e + rest;
    assert s[0] == e[0];
    assert |e| >= 2 ==> s[1] == e[1];
    if |e| == 6 {
      assert s[2] == e[2] && s[3] == e[3] && s[4] == e[4] && s[5] == e[5];
    }
  }

  lemma {:induction false} UnquoteQuoted(s: Bytes, rest: Bytes)
    ensures Unquote(Quoted(s, rest)) == Some((s, rest))
    decreases s
  {
    if s == [] {
      assert ([QUOTE] + rest)[1..] == rest;
    } else {
      var tail := Quoted(s[1..], rest);
      UnescapeEscape(s[0], tail);
      UnquoteQuoted(s[1..], rest);
      assert (EscapeByte(s[0]) + tail)[|EscapeByte(s[0])|..] == tail;
      assert [s[0]] + s[1..] == s;
    }
  }

  lemma {:induction false} QuotedHasNoNewline(s: Bytes, rest: Bytes)
    requires NEWLINE !in rest
    ensures NEWLINE !in Quoted(s, rest)
    decreases s
  {
    if s != [] {
      QuotedHasNoNewline(s[1..], rest);
    }
  }

  lemma {:induction false} QuotedThen(s: Bytes, a: Bytes, b: Bytes)
    ensures Quoted(s, a + b) == Quoted(s, a) + b
    decreases s
  {
    if s != [] {
      QuotedThen(s[1..], a, b);
    }
  }

  // ----- Lines -----

  function OperationName(operation: Operation): Bytes {
    match operation
    case SessionCreated => Ascii("session_created")
    case CapturePublished => Ascii("capture_published")
    case ManifestPublished => Ascii("manifest_published")
  }

  function SequenceKey(): Bytes { Ascii("{\"sequence\":") }
  function OperationKey(): Bytes { Ascii(",\"operation\":\"") }
  function PathKey(): Bytes { Ascii("\",\"relativePath\":\"") }
  function ContentKey(): Bytes { Ascii(",\"contentSha256\":\"") }
  function PreviousKey(): Bytes { Ascii(",\"previousSha256\":\"") }
  function BodyKey(): Bytes { Ascii("{\"body\":") }
  function EntryKey(): Bytes { Ascii(",\"entrySha256\":\"") }
  function Close(): Bytes { Ascii("}") }

  function BodyTail(body: Body, rest: Bytes): Bytes {
    Quoted(body.relativePath,
           ContentKey() + Quoted(body.contentSha256,
                                 PreviousKey() + Quoted(body.previousSha256, Close() + rest)))
  }

  /** A body's JSON text followed by `rest`. */
  function PrintBodyThen(body: Body, rest: Bytes): Bytes {
    SequenceKey() + (Decimal(body.sequence)
      + (OperationKey() + (OperationName(body.operation) + (PathKey() + BodyTail(body, rest)))))
  }

  function PrintBody(body: Body): Bytes {
    PrintBodyThen(body, [])
  }

  /** A line's JSON text, without its newline. */
  function PrintLine(line: Line): Bytes {
    BodyKey() + PrintBodyThen(line.body, EntryKey() + Quoted(line.entrySha256, Close()))
  }

  function After(literal: Bytes, s: Bytes): Option<Bytes> {
    if literal <= s then Some(s[|literal|..]) else None
  }

  lemma AfterItself(literal: Bytes, rest: Bytes)
    ensures After(literal, literal + rest) == Some(rest)
  {
    assert (literal + rest)[|literal|..] == rest;
  }

  function ParseOperation(s: Bytes): Option<(Operation, Bytes)> {
    if After(OperationName(SessionCreated), s).Some? then
      Some((SessionCreated, After(OperationName(SessionCreated), s).value))
    else if After(OperationName(CapturePublished), s).Some? then
      Some((CapturePublished, After(OperationName(CapturePublished), s).value))
    else if After(OperationName(ManifestPublished), s).Some? then
      Some((ManifestPublished, After(OperationName(ManifestPublished), s).value))
    else None
  }

  lemma ParsesOperation(operation: Operation, rest: Bytes)
    ensures ParseOperation(OperationName(operation) + rest) == Some((operation, rest))
  {
    var s := OperationName(operation) + rest;
    AfterItself(OperationName(operation), rest);
    assert s[0] == OperationName(operation)[0];
    assert OperationName(SessionCreated)[0] == 115 && OperationName(CapturePublished)[0] == 99
        && OperationName(ManifestPublished)[0] == 109;
  }

  /** A key's literal, then a string. */
  function ParseText(key: Bytes, s: Bytes): Option<(Bytes, Bytes)> {
    var text := After(key, s);
    if text.None? then None else Unquote(text.value)
  }

  lemma ParsesText(key: Bytes, text: Bytes, rest: Bytes)
    ensures ParseText(key, key + Quoted(text, rest)) == Some((text, rest))
  {
    AfterItself(key, Quoted(text, rest));
    UnquoteQuoted(text, rest);
  }

  function ParseNumber(key: Bytes, s: Bytes): Option<(nat, Bytes)> {
    var text := After(key, s);
    if text.None? then None
    else
      var k := DigitCount(text.value);
      if k == 0 then None else Some((DecimalValue(text.value[..k]), text.value[k..]))
  }

  lemma ParsesNumber(key: Bytes, n: nat, rest: Bytes)
    requires rest != [] && !IsDigit(rest[0])
    ensures ParseNumber(key, key + (Decimal(n) + rest)) == Some((n, rest))
  {
    AfterItself(key, Decimal(n) + rest);
    DigitCountOf(Decimal(n), rest);
    DecimalRoundTrip(n);
    assert (Decimal(n) + rest)[..|Decimal(n)|] == Decimal(n);
    assert (Decimal(n) + rest)[|Decimal(n)|..] == rest;
  }

  function ParseTail(sequence: nat, operation: Operation, s: Bytes): Option<(Body, Bytes)> {
    var path := ParseText(PathKey(), s);
    if path.None? then None
    else
      var content := ParseText(ContentKey(), path.value.1);
      if content.None? then None
      else
        var previous := ParseText(PreviousKey(), content.value.1);
        if previous.None? then None
        else
          var rest := After(Close(), previous.value.1);
          if rest.None? then None
          else Some((Body(sequence, operation, path.value.0, content.value.0, previous.value.0), rest.value))
  }

  function ParseBody(s: Bytes): Option<(Body, Bytes)> {
    var sequence := ParseNumber(SequenceKey(), s);
    if sequence.None? then None
    else
      var rest := After(OperationKey(), sequence.value.1);
      if rest.None? then None
      else
        var operation := ParseOperation(rest.value);
        if operation.None? then None else ParseTail(sequence.value.0, operation.value.0, operation.value.1)
  }

  /** The parser for exactly the text the store writes. */
  function ParseLine(s: Bytes): Option<Line> {
    var text := After(BodyKey(), s);
    if text.None? then None
    else
      var body := ParseBody(text.value);
      if body.None? then None
      else
        var digest := ParseText(EntryKey(), body.value.1);
        if digest.Some? && digest.value.1 == Close() then Some(Line(body.value.0, digest.value.0)) else None
  }

  lemma ParsesTail(body: Body, rest: Bytes)
    ensures ParseTail(body.sequence, body.operation, PathKey() + BodyTail(body, rest)) == Some((body, rest))
  {
    hide PathKey, ContentKey, PreviousKey, Quoted, Unquote, ParseText, After;
    var c := PreviousKey() + Quoted(body.previousSha256, Close() + rest);
    var b := ContentKey() + Quoted(body.contentSha256, c);
    ParsesText(PathKey(), body.relativePath, b);
    ParsesText(ContentKey(), body.contentSha256, c);
    ParsesText(PreviousKey(), body.previousSha256, Close() + rest);
    AfterItself(Close(), rest);
  }

  /** Nothing is lost: a body is read back, with whatever followed it. */
  lemma ParsesBody(body: Body, rest: Bytes)
    ensures ParseBody(PrintBodyThen(body, rest)) == Some((body, rest))
  {
    var tail := PathKey() + BodyTail(body, rest);
    var b := OperationKey() + (OperationName(body.operation) + tail);
    assert OperationKey()[0] == 44;
    hide PathKey, BodyTail, OperationKey, OperationName, ParseTail, ParseNumber, ParseOperation, After, Decimal;
    ParsesNumber(SequenceKey(), body.sequence, b);
    AfterItself(OperationKey(), OperationName(body.operation) + tail);
    ParsesOperation(body.operation, tail);
    ParsesTail(body, rest);
  }

  /** Reading back a printed line gives the line. */
  lemma LineRoundTrip(line: Line)
    ensures ParseLine(PrintLine(line)) == Some(line)
  {
    hide BodyKey, EntryKey, Close, PrintBodyThen, ParseBody, Quoted, ParseText, After;
    var entry := EntryKey() + Quoted(line.entrySha256, Close());
    AfterItself(BodyKey(), PrintBodyThen(line.body, entry));
    ParsesBody(line.body, entry);
    ParsesText(EntryKey(), line.entrySha256, Close());
  }

  /** Different bodies never share a text, so never share a hashed input. */
  lemma BodyTextIsInjective(a: Body, b: Body)
    requires PrintBody(a) == PrintBody(b)
    ensures a == b
  {
    hide PrintBodyThen, ParseBody;
    ParsesBody(a, []);
    ParsesBody(b, []);
  }

  lemma BodyTailThen(body: Body, rest: Bytes)
    ensures BodyTail(body, rest) == BodyTail(body, []) + rest
  {
    hide ContentKey, PreviousKey, Close, Quoted;
    assert Close() + rest == (Close() + []) + rest;
    QuotedThen(body.previousSha256, Close() + [], rest);
    var p := Quoted(body.previousSha256, Close() + []);
    Assoc(PreviousKey(), p, rest);
    QuotedThen(body.contentSha256, PreviousKey() + p, rest);
    var c := Quoted(body.contentSha256, PreviousKey() + p);
    Assoc(ContentKey(), c, rest);
    QuotedThen(body.relativePath, ContentKey() + c, rest);
  }

  /** The hashed body text is the very text that stands inside the line. */
  lemma PrintBodyInLine(body: Body, rest: Bytes)
    ensures PrintBodyThen(body, rest) == PrintBody(body) + rest
  {
    hide SequenceKey, OperationKey, PathKey, OperationName, BodyTail, Decimal;
    BodyTailThen(body, rest);
    var t := BodyTail(body, []);
    Assoc(PathKey(), t, rest);
    Assoc(OperationName(body.operation), PathKey() + t, rest);
    var o := OperationName(body.operation) + (PathKey() + t);
    Assoc(OperationKey(), o, rest);
    Assoc(Decimal(body.sequence), OperationKey() + o, rest);
    Assoc(SequenceKey(), Decimal(body.sequence) + (OperationKey() + o), rest);
  }

  predicate NoNewline(s: Bytes) {
    NEWLINE !in s
  }

  lemma KeysHaveNoNewline()
    ensures NoNewline(SequenceKey()) && NoNewline(OperationKey()) && NoNewline(PathKey())
    ensures NoNewline(ContentKey()) && NoNewline(PreviousKey()) && NoNewline(BodyKey())
    ensures NoNewline(EntryKey()) && NoNewline(Close())
  {
  }

  lemma NameHasNoNewline(operation: Operation)
    ensures NoNewline(OperationName(operation))
  {
  }

  lemma BodyHasNoNewline(body: Body, rest: Bytes)
    requires NoNewline(rest)
    ensures NoNewline(PrintBodyThen(body, rest))
  {
    KeysHaveNoNewline();
    NameHasNoNewline(body.operation);
    assert NoNewline(Decimal(body.sequence));
    hide SequenceKey, OperationKey, PathKey, ContentKey, PreviousKey, BodyKey, EntryKey, Close, OperationName, Decimal;
    var p := PreviousKey() + Quoted(body.previousSha256, Close() + rest);
    QuotedHasNoNewline(body.previousSha256, Close() + rest);
    var c := ContentKey() + Quoted(body.contentSha256, p);
    QuotedHasNoNewline(body.contentSha256, p);
    QuotedHasNoNewline(body.relativePath, c);
    hide Quoted;
  }

  /** A printed line holds no raw newline, whatever its strings hold. */
  lemma LineHasNoNewline(line: Line)
    ensures NoNewline(PrintLine(line))
  {
    KeysHaveNoNewline();
    hide BodyKey, EntryKey, Close, PrintBodyThen;
    QuotedHasNoNewline(line.entrySha256, Close());
    var entry := EntryKey() + Quoted(line.entrySha256, Close());
    BodyHasNoNewline(line.body, entry);
  }

  // ----- Lengths -----

  lemma {:induction false} QuotedIsShort(s: Bytes, rest: Bytes)
    ensures |Quoted(s, rest)| <= 6 * |s| + 1 + |rest|
    decreases s
  {
    if s != [] {
      QuotedIsShort(s[1..], rest);
    }
  }

  function TextLength(line: Line): nat {
    |line.body.relativePath| + |line.body.contentSha256| + |line.body.previousSha256| + |line.entrySha256|
  }

  /** A line is its four strings, at worst six octets for one, and little more. */
  lemma LineIsShort(line: Line)
    ensures |PrintLine(line)| <= 6 * TextLength(line) + |Decimal(line.body.sequence)| + 156
  {
    hide Quoted, Decimal;
    var body, entry := line.body, EntryKey() + Quoted(line.entrySha256, Close());
    QuotedIsShort(line.entrySha256, Close());
    QuotedIsShort(body.previousSha256, Close() + entry);
    var p := PreviousKey() + Quoted(body.previousSha256, Close() + entry);
    QuotedIsShort(body.contentSha256, p);
    QuotedIsShort(body.relativePath, ContentKey() + Quoted(body.contentSha256, p));
  }
}
