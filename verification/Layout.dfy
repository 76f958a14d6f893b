/** The octets of the three formats, field by field. */
module Layout {
  import opened Bytes
  import Chunks
  import Crc
  import Grammar
  import Journal
  import JournalText
  import Paths
  import Ustar
  import Utf8

  // ----- A USTAR header -----

  /** Reading octal digits from the left, `before` being what was read. */
  function Octal(before: nat, digits: Bytes): nat
    requires forall i | 0 <= i < |digits| :: 48 <= digits[i] <= 55
    decreases digits
  {
    if digits == [] then before
    else
      var digit: int := digits[0];
      Octal(8 * before + (digit - 48), digits[1..])
  }

  function Total(h: Bytes): nat {
    if h == [] then 0 else h[0] as int + Total(h[1..])
  }

  predicate IsPadded(field: Bytes, text: Bytes) {
    |text| <= |field| && field[..|text|] == text && forall i | |text| <= i < |field| :: field[i] == 0
  }

  /** Digits and a NUL that spell `value`. */
  predicate IsOctalField(field: Bytes, value: nat) {
    && 1 < |field| <= 12 && field[|field| - 1] == 0
    && (forall i | 0 <= i < |field| - 1 :: 48 <= field[i] <= 55) && Octal(0, field[..|field| - 1]) == value
  }

  /** The fields of IEEE Std 1003.1-2017 (pax, "ustar Interchange Format"), for a
      regular file of mode 0600, owner and group 0 and time 0. The checksum is the
      sum of all octets, its own field counted as spaces. */
  predicate IsHeader(h: Bytes, name: Bytes, prefix: Bytes, size: nat) {
    && |h| == 512 && IsFront(h, name, size) && IsBack(h, prefix)
    && IsOctalField(h[148..156], Total(h[..148]) + 256 + Total(h[156..]))
  }

  predicate IsFront(h: Bytes, name: Bytes, size: nat)
    requires |h| == 512
  {
    && IsPadded(h[0..100], name)
    && h[100..108] == Ascii("0000600") + [0]
    && h[108..116] == Ascii("0000000") + [0] && h[116..124] == Ascii("0000000") + [0]
    && IsOctalField(h[124..136], size)
  }

  predicate IsBack(h: Bytes, prefix: Bytes)
    requires |h| == 512
  {
    && h[136..148] == Ascii("00000000000") + [0]
    && h[156] == 48 && IsPadded(h[157..257], [])
    && h[257..265] == Ascii("ustar") + [0] + Ascii("00")
    && IsPadded(h[265..345], []) && IsPadded(h[345..500], prefix) && IsPadded(h[500..512], [])
  }

  lemma {:induction false} OneMoreDigit(before: nat, s: Bytes, d: byte)
    requires 48 <= d <= 55 && forall i | 0 <= i < |s| :: 48 <= s[i] <= 55
    ensures Octal(before, s + [d]) == 8 * Octal(before, s) + (d as int - 48)
    decreases s
  {
    if s == [] {
      assert s + [d] == [d] && [d][1..] == [];
      assert Octal(before, [d]) == Octal(8 * before + (d as int - 48), []);
    } else {
      var digit: int := s[0];
      assert (s + [d])[0] == s[0] && (s + [d])[1..] == s[1..] + [d];
      OneMoreDigit(8 * before + (digit - 48), s[1..], d);
    }
  }

  lemma {:induction false} ValueIsOctal(s: Bytes)
    requires forall i | 0 <= i < |s| :: 48 <= s[i] <= 55
    ensures Ustar.OctalValue(s) == Octal(0, s)
    decreases |s|
  {
    if s != [] {
      var n := |s| - 1;
      ValueIsOctal(s[..n]);
      OneMoreDigit(0, s[..n], s[n]);
      assert s == s[..n] + [s[n]];
    }
  }

  lemma TextSpells(value: nat, width: nat)
    requires value < Ustar.Eights(width)
    ensures Octal(0, Ustar.OctalText(value, width)) == value
  {
    Ustar.OctalRoundTrip(value, width);
    ValueIsOctal(Ustar.OctalText(value, width));
  }

  lemma FieldSpells(value: nat, width: nat)
    requires 0 < width <= 11 && value < Ustar.Eights(width)
    ensures IsOctalField(Ustar.OctalField(value, width), value)
  {
    TextSpells(value, width);
    hide Octal, Ustar.OctalText, Ustar.Eights;
    var field := Ustar.OctalField(value, width);
    assert field[..|field| - 1] == Ustar.OctalText(value, width);
  }

  lemma {:induction false} TotalConcat(a: Bytes, b: Bytes)
    ensures Total(a + b) == Total(a) + Total(b)
    decreases a
  {
    if a == [] {
      assert a + b == b;
    } else {
      assert (a + b)[1..] == a[1..] + b;
      TotalConcat(a[1..], b);
    }
  }

  lemma {:induction false} SumIsTotal(h: Bytes)
    ensures Ustar.Sum(h) == Total(h)
    decreases |h|
  {
    if h != [] {
      var n := |h| - 1;
      SumIsTotal(h[..n]);
      assert h == h[..n] + [h[n]] && [h[n]][1..] == [];
      assert Total([h[n]]) == h[n] as int + Total([]);
      TotalConcat(h[..n], [h[n]]);
    }
  }

  lemma EightSpaces(s: Bytes)
    requires |s| == 8 && forall i | 0 <= i < 8 :: s[i] == 32
    ensures Total(s) == 256
  {
    assert s == [32, 32, 32, 32] + [32, 32, 32, 32];
    var four: Bytes := [32, 32, 32, 32];
    assert four[1..] == [32, 32, 32] && four[1..][1..] == [32, 32] && four[1..][1..][1..] == [32] && [32][1..] == [];
    assert Total(four) == 128;
    TotalConcat(four, four);
  }

  lemma BlankTotal(u: Bytes)
    requires |u| == 512 && u[148..156] == Repeat(Ustar.SPACE, 8)
    ensures Ustar.Sum(u) == Total(u[..148]) + 256 + Total(u[156..])
  {
    SumIsTotal(u);
    hide Ustar.Sum, Total;
    assert u == u[..148] + (u[148..156] + u[156..]);
    TotalConcat(u[..148], u[148..156] + u[156..]);
    TotalConcat(u[148..156], u[156..]);
    EightSpaces(u[148..156]);
  }

  /** Every octet of the header before its checksum is filled in. */
  lemma FrontSays(s: Ustar.Parts, size: nat)
    requires Ustar.Fits(s, size)
    ensures var f := Ustar.Front(s, size);
            && IsPadded(f[0..100], s.name)
            && f[100..108] == Ascii("0000600") + [0] && f[108..116] == Ascii("0000000") + [0]
            && f[116..124] == Ascii("0000000") + [0] && f[124..136] == Ustar.OctalField(size, 11)
            && forall i | 136 <= i < 512 :: f[i] == 0
  {
    hide Ustar.OctalField, Ustar.Eights, Ustar.Overwrite;
    var f := Ustar.Front(s, size);
    assert f[0..100][..|s.name|] == s.name;
  }

  lemma UnsignedSays(s: Ustar.Parts, size: nat)
    requires Ustar.Fits(s, size)
    ensures var u, f := Ustar.Unsigned(s, size), Ustar.Front(s, size);
            && u[..136] == f[..136] && u[136..148] == Ascii("00000000000") + [0] && u[156] == 48
            && u[257..265] == Ascii("ustar") + [0] + Ascii("00") && IsPadded(u[345..500], s.prefix)
            && forall i | 157 <= i < 257 || 265 <= i < 345 || 500 <= i < 512 :: u[i] == 0
  {
    FrontSays(s, size);
    hide Ustar.Front, Ustar.Overwrite;
    var u := Ustar.Unsigned(s, size);
    assert u[345..500][..|s.prefix|] == s.prefix;
  }

  lemma FrontFields(h: Bytes, f: Bytes, s: Ustar.Parts, size: nat)
    requires Ustar.Fits(s, size) && f == Ustar.Front(s, size) && |h| == 512 && h[..136] == f[..136]
    ensures IsFront(h, s.name, size)
  {
    FrontSays(s, size);
    FieldSpells(size, 11);
    hide Ustar.Front, IsPadded, Ustar.OctalField, Ascii, IsOctalField;
    assert h[0..100] == h[..136][0..100] && h[100..108] == h[..136][100..108] && h[108..116] == h[..136][108..116];
    assert h[116..124] == h[..136][116..124] && h[124..136] == h[..136][124..136];
    assert f[0..100] == f[..136][0..100] && f[100..108] == f[..136][100..108] && f[108..116] == f[..136][108..116];
    assert f[116..124] == f[..136][116..124] && f[124..136] == f[..136][124..136];
  }

  lemma BackFields(h: Bytes, u: Bytes, s: Ustar.Parts, size: nat)
    requires Ustar.Fits(s, size) && u == Ustar.Unsigned(s, size) && |h| == 512
    requires h[..148] == u[..148] && h[156..] == u[156..]
    ensures IsBack(h, s.prefix)
  {
    UnsignedSays(s, size);
    hide Ustar.Unsigned, Ustar.Front, Ascii;
    assert h[136..148] == h[..148][136..148] && u[136..148] == u[..148][136..148];
    assert forall i | 156 <= i < 512 :: h[i] == h[156..][i - 156] && u[i] == u[156..][i - 156];
    assert h[257..265] == u[257..265] && h[345..500] == u[345..500];
  }

  lemma ChecksumSays(h: Bytes, u: Bytes)
    requires |h| == |u| == 512 && h[..148] == u[..148] && h[156..] == u[156..] && Ustar.Sum(u) < Ustar.Eights(7)
    requires u[148..156] == Repeat(Ustar.SPACE, 8) && h[148..156] == Ustar.OctalField(Ustar.Sum(u), 7)
    ensures IsOctalField(h[148..156], Total(h[..148]) + 256 + Total(h[156..]))
  {
    hide Ustar.Sum, Ustar.OctalField, Ustar.Eights, Total, IsOctalField, Octal;
    BlankTotal(u);
    var sum := Ustar.Sum(u);
    FieldSpells(sum, 7);
    assert sum == Total(h[..148]) + 256 + Total(h[156..]);
  }

  lemma HeaderParts(s: Ustar.Parts, size: nat)
    requires Ustar.Fits(s, size)
    ensures var h, u := Ustar.Header(s, size), Ustar.Unsigned(s, size);
            && h[..136] == Ustar.Front(s, size)[..136] && h[..148] == u[..148] && h[156..] == u[156..]
            && Ustar.Sum(u) < Ustar.Eights(7) && h[148..156] == Ustar.OctalField(Ustar.Sum(u), 7)
            && u[148..156] == Repeat(Ustar.SPACE, 8)
  {
    Ustar.HeaderFields(s, size);
    Ustar.UnsignedFields(s, size);
    hide Ustar.Header, Ustar.Unsigned, Ustar.Front, Ustar.Sum, Ustar.OctalField, Ustar.Eights, Ustar.Overwrite, AllZero;
    var h, u := Ustar.Header(s, size), Ustar.Unsigned(s, size);
    assert h[..136] == h[..148][..136] && u[..136] == u[..148][..136];
  }

  /** The builder writes exactly this header. */
  lemma HeaderLayout(s: Ustar.Parts, size: nat)
    requires Ustar.Fits(s, size)
    ensures IsHeader(Ustar.Header(s, size), s.name, s.prefix, size)
  {
    hide Ustar.Header, Ustar.Unsigned, Ustar.Front, Ustar.Sum, Ustar.OctalField, Ustar.Eights, Total, IsFront, IsBack,
         IsOctalField, Ustar.Fits;
    var h, u := Ustar.Header(s, size), Ustar.Unsigned(s, size);
    HeaderParts(s, size);
    FrontFields(h, Ustar.Front(s, size), s, size);
    BackFields(h, u, s, size);
    ChecksumSays(h, u);
  }

  // ----- Reading it -----

  /** The octal digits before the first NUL or space, if there are any. */
  predicate IsNumberAt(field: Bytes, n: nat, value: nat) {
    && 0 < n <= |field| && (forall i | 0 <= i < n :: 48 <= field[i] <= 55)
    && (n < |field| ==> field[n] == 0 || field[n] == 32)
    && Octal(0, field[..n]) == value <= 0xFFFF_FFFF_FFFF_FFFF
  }

  ghost predicate IsNumber(field: Bytes, value: nat) {
    exists n: nat :: IsNumberAt(field, n, value)
  }

  lemma {:induction false} TextEnds(field: Bytes)
    ensures var n := |Ustar.TextOf(field)|;
            && n <= |field| && field[..n] == Ustar.TextOf(field)
            && (forall i | 0 <= i < n :: field[i] != 0 && field[i] != 32)
            && (n < |field| ==> field[n] == 0 || field[n] == 32)
    decreases field
  {
    if field != [] && field[0] != 0 && field[0] != 32 {
      TextEnds(field[1..]);
      var n := |Ustar.TextOf(field)|;
      assert field[..n] == [field[0]] + field[1..][..n - 1];
      assert forall i | 1 <= i < n :: field[i] == field[1..][i - 1];
    }
  }

  lemma ParsesNumber(field: Bytes, value: nat)
    ensures Ustar.ParseOctal(field) == Some(value) <==> IsNumber(field, value)
  {
    TextEnds(field);
    var text := Ustar.TextOf(field);
    hide Ustar.TextOf, Octal, Ustar.OctalValue;
    if Ustar.IsOctal(text) {
      ValueIsOctal(text);
    }
    if Ustar.ParseOctal(field) == Some(value) {
      assert IsNumberAt(field, |text|, value);
    }
    if n: nat :| IsNumberAt(field, n, value) {
      assert n == |text|;
    }
  }

  lemma ParsesField(field: Bytes, text: Bytes)
    ensures Ustar.FieldText(field) == Some(text) <==> IsPadded(field, text) && 0 !in text
  {
    hide Ustar.FirstZero;
    var end := Ustar.FirstZero(field);
    if Ustar.FieldText(field) == Some(text) {
      assert forall i | end <= i < |field| :: field[i] == field[end..][i - end];
    }
    if IsPadded(field, text) && 0 !in text {
      forall i | 0 <= i < |text| ensures field[i] != 0 {
        assert field[i] == field[..|text|][i] == text[i];
        assert text[i] in text;
      }
      var x, y := if |text| < |field| then field[|text|] else 0, if end < |field| then field[end] else 0;
      assert x == 0 && y == 0 && end == |text|;
      assert forall i | end <= i < |field| :: field[i] == field[end..][i - end];
    }
  }

  /** The path of name and prefix. */
  predicate IsPath(h: Bytes, name: Bytes, prefix: Bytes, path: Bytes)
    requires |h| == 512
  {
    && IsPadded(h[0..100], name) && 0 !in name && Utf8.IsUtf8(name)
    && IsPadded(h[345..500], prefix) && 0 !in prefix && Utf8.IsUtf8(prefix)
    && path == (if prefix == [] then name else prefix + ([47] + name)) && Paths.IsObjectPath(path)
  }

  /** The checksum over all octets, its own field counted as spaces. */
  ghost predicate IsSummed(h: Bytes)
    requires |h| == 512
  {
    IsNumber(h[148..156], Total(h[..148]) + 256 + Total(h[156..]))
  }

  predicate IsMarked(h: Bytes)
    requires |h| == 512
  {
    h[257..265] == Ascii("ustar") + [0] + Ascii("00")
  }

  /** What a readable header says. */
  ghost predicate IsReadable(h: Bytes, path: Bytes, size: nat)
    requires |h| == 512
  {
    && IsSummed(h) && IsMarked(h)
    && (exists name, prefix :: IsPath(h, name, prefix, path))
    && (h[156] == 48 || h[156] == 0) && IsNumber(h[124..136], size)
  }

  lemma PathIsRead(h: Bytes, path: Bytes)
    requires |h| == 512
    ensures Ustar.ReadPath(h) == Some(path) <==> exists name, prefix :: IsPath(h, name, prefix, path)
  {
    hide Ustar.FieldText, IsPadded, Utf8.IsUtf8, Paths.IsObjectPath;
    var a, b := Ustar.FieldText(h[..100]), Ustar.FieldText(h[345..500]);
    assert h[0..100] == h[..100];
    if Ustar.ReadPath(h) == Some(path) {
      ParsesField(h[0..100], a.value);
      ParsesField(h[345..500], b.value);
      assert IsPath(h, a.value, b.value, path);
    }
    if name, prefix :| IsPath(h, name, prefix, path) {
      ParsesField(h[0..100], name);
      ParsesField(h[345..500], prefix);
    }
  }

  lemma ChecksumIsRead(h: Bytes)
    requires |h| == 512
    ensures Ustar.ChecksumMatches(h) <==> IsSummed(h)
  {
    var u := Ustar.Overwrite(h, 148, Repeat(Ustar.SPACE, 8));
    assert u[..148] == h[..148] && u[156..] == h[156..] && u[148..156] == Repeat(Ustar.SPACE, 8);
    hide Ustar.Overwrite, Ustar.Sum, Total, IsNumber, Ustar.ParseOctal;
    BlankTotal(u);
    ParsesNumber(h[148..156], Ustar.Sum(u));
  }

  lemma MagicIsRead(h: Bytes)
    requires |h| == 512
    ensures Ustar.IsUstar(h) <==> IsMarked(h)
  {
    var magic, version := Ascii("ustar") + [0], Ascii("00");
    assert |magic| == 6;
    assert h[257..265] == h[257..263] + h[263..265];
    if h[257..265] == magic + version {
      assert (magic + version)[..6] == magic && (magic + version)[6..] == version;
      assert h[257..265][..6] == h[257..263] && h[257..265][6..] == h[263..265];
    }
    hide Ascii;
  }

  /** The parser reads a header exactly when it is this: checksum, magic and
      version right, a regular file, and its fields well formed. */
  lemma ReadsExactly(h: Bytes, path: Bytes, size: nat)
    requires |h| == 512
    ensures Ustar.ReadHeader(h) == Some((path, size)) <==> IsReadable(h, path, size)
  {
    ChecksumIsRead(h);
    MagicIsRead(h);
    PathIsRead(h, path);
    ParsesNumber(h[124..136], size);
    hide Ustar.ChecksumMatches, Ustar.IsUstar, Ustar.ReadPath, Ustar.ParseOctal, IsNumber, IsPath, IsSummed, IsMarked;
  }

  // ----- A PNG chunk -----

  /** Length, type, data and CRC, numbers most significant octet first. */
  predicate IsChunk(b: Bytes, kind: Bytes, data: Bytes, crc: Bytes) {
    && |kind| == 4 && |crc| == 4 && |b| == 12 + |data|
    && 0x100_0000 * (b[0] as int) + 0x1_0000 * (b[1] as int) + 0x100 * (b[2] as int) + b[3] as int == |data|
    && b[4..8] == kind && b[8..8 + |data|] == data && b[8 + |data|..] == crc
  }

  lemma NumberOf(b: Bytes)
    requires |b| == 4
    ensures 0x100_0000 * (b[0] as int) + 0x1_0000 * (b[1] as int) + 0x100 * (b[2] as int) + b[3] as int
         == Chunks.Be32(b)
  {
  }

  lemma FourParts(a: Bytes, b: Bytes, c: Bytes, d: Bytes)
    requires |a| == 4 && |b| == 4
    ensures var s := a + b + c + d;
            && |s| == 8 + |c| + |d| && s[0] == a[0] && s[1] == a[1] && s[2] == a[2] && s[3] == a[3]
            && s[4..8] == b && s[8..8 + |c|] == c && s[8 + |c|..] == d
  {
  }

  lemma ChunkLayout(c: Chunks.Chunk)
    requires Chunks.ChunkOk(c)
    ensures IsChunk(Chunks.Encode(c), c.kind, c.data, c.crc)
  {
    hide Chunks.ToBe32, Chunks.StoredCrc, Crc.Crc32, Chunks.Be32;
    var length := Chunks.ToBe32(|c.data|);
    FourParts(length, c.kind, c.data, c.crc);
    NumberOf(length);
  }

  /** The thirteen octets of an accepted header chunk: width, height, eight bits a
      sample, one of the five colour types, and no choice of method. */
  predicate IsImageHeader(d: Bytes, width: nat, height: nat, colorType: byte) {
    && |d| == 13
    && 0x100_0000 * (d[0] as int) + 0x1_0000 * (d[1] as int) + 0x100 * (d[2] as int) + d[3] as int == width
    && 0x100_0000 * (d[4] as int) + 0x1_0000 * (d[5] as int) + 0x100 * (d[6] as int) + d[7] as int == height
    && d[8] == 8 && d[9] == colorType && colorType in {0, 2, 3, 4, 6} && d[10..13] == [0, 0, 0]
  }

  lemma ImageHeaderLayout(d: Bytes, limits: Chunks.PngLimits)
    requires Grammar.HeaderOk(d, limits)
    ensures var h := Grammar.ReadHeader(d); IsImageHeader(d, h.width, h.height, h.colorType)
  {
    assert d[0..4][0] == d[0] && d[4..8][0] == d[4];
  }

  /** The kinds of chunk, by name; any other name of a critical chunk is refused. */
  lemma KindsByName(kind: Bytes)
    ensures Grammar.KindOf(kind) == Grammar.ImageHeader <==> kind == Ascii("IHDR")
    ensures Grammar.KindOf(kind) == Grammar.Palette <==> kind == Ascii("PLTE")
    ensures Grammar.KindOf(kind) == Grammar.Transparency <==> kind == Ascii("tRNS")
    ensures Grammar.KindOf(kind) == Grammar.ImageData <==> kind == Ascii("IDAT")
    ensures Grammar.KindOf(kind) == Grammar.ImageEnd <==> kind == Ascii("IEND")
    ensures Grammar.KindOf(kind) == Grammar.UnknownCritical
       <==> && kind !in {Ascii("IHDR"), Ascii("PLTE"), Ascii("tRNS"), Ascii("IDAT"), Ascii("IEND")}
            && kind != [] && 65 <= kind[0] <= 90
  {
    assert Ascii("IHDR") == Chunks.IHDR && Ascii("PLTE") == Chunks.PLTE && Ascii("tRNS") == Chunks.TRNS;
    assert Ascii("IDAT") == Chunks.IDAT && Ascii("IEND") == Chunks.IEND;
  }

  // ----- A journal line -----

  /** Octets that JSON text shows as they are. */
  predicate IsBare(s: Bytes) {
    forall i | 0 <= i < |s| :: s[i] >= 32 && s[i] != 34 && s[i] != 92
  }

  function OperationWord(operation: JournalText.Operation): Bytes {
    match operation
    case SessionCreated => Ascii("session_created")
    case CapturePublished => Ascii("capture_published")
    case ManifestPublished => Ascii("manifest_published")
  }

  lemma {:induction false} BareIsQuoted(s: Bytes, rest: Bytes)
    requires IsBare(s)
    ensures JournalText.Quoted(s, rest) == s + ([34] + rest)
    decreases s
  {
    if s == [] {
      assert s + ([34] + rest) == [34] + rest;
    } else {
      BareIsQuoted(s[1..], rest);
      assert s == [s[0]] + s[1..];
      Assoc([s[0]], s[1..], [34] + rest);
    }
  }

  /** The body of a line, and what follows it. */
  function BodyLine(body: JournalText.Body, rest: Bytes): Bytes {
    Ascii("{\"sequence\":") + (JournalText.Decimal(body.sequence)
    + (Ascii(",\"operation\":\"") + (OperationWord(body.operation)
    + (Ascii("\",\"relativePath\":\"") + (body.relativePath + (Ascii("\"")
    + (Ascii(",\"contentSha256\":\"") + (body.contentSha256 + (Ascii("\"")
    + (Ascii(",\"previousSha256\":\"") + (body.previousSha256 + (Ascii("\"") + (Ascii("}") + rest)))))))))))))
  }

  predicate IsBareBody(body: JournalText.Body) {
    IsBare(body.relativePath) && IsBare(body.contentSha256) && IsBare(body.previousSha256)
  }

  lemma Mark()
    ensures Ascii("\"") == [34]
  {
  }

  lemma TailText(body: JournalText.Body, rest: Bytes)
    requires IsBareBody(body)
    ensures JournalText.BodyTail(body, rest)
         == body.relativePath + (Ascii("\"")
            + (Ascii(",\"contentSha256\":\"") + (body.contentSha256 + (Ascii("\"")
            + (Ascii(",\"previousSha256\":\"") + (body.previousSha256 + (Ascii("\"") + (Ascii("}") + rest))))))))
  {
    hide JournalText.Quoted, IsBare, Ascii;
    Mark();
    var p := Ascii("}") + rest;
    BareIsQuoted(body.previousSha256, p);
    var c := Ascii(",\"previousSha256\":\"") + (body.previousSha256 + (Ascii("\"") + p));
    BareIsQuoted(body.contentSha256, c);
    var r := Ascii(",\"contentSha256\":\"") + (body.contentSha256 + (Ascii("\"") + c));
    BareIsQuoted(body.relativePath, r);
  }

  /** Lines end with a newline. */
  lemma LineEnds(entries: seq<Journal.Entry>, operation: JournalText.Operation, path: Bytes, content: Bytes, hash: Hash)
    ensures Journal.JournalLine(entries, operation, path, content, hash)
         == JournalText.PrintLine(Journal.LineFor(entries, operation, path, content, hash)) + [10]
  {
    hide JournalText.PrintLine, Journal.LineFor;
  }

  /** The line of the journal, as JSON text. */
  lemma LineText(line: JournalText.Line)
    requires IsBareBody(line.body) && IsBare(line.entrySha256)
    ensures JournalText.PrintBody(line.body) == BodyLine(line.body, [])
    ensures JournalText.PrintLine(line)
         == Ascii("{\"body\":")
            + BodyLine(line.body, Ascii(",\"entrySha256\":\"") + (line.entrySha256 + (Ascii("\"") + Ascii("}"))))
  {
    hide JournalText.Quoted, JournalText.BodyTail, JournalText.Decimal, IsBare, IsBareBody, Ascii, OperationWord;
    Mark();
    BareIsQuoted(line.entrySha256, Ascii("}"));
    var entry := Ascii(",\"entrySha256\":\"") + (line.entrySha256 + (Ascii("\"") + Ascii("}")));
    OperationText(line.body.operation);
    TailText(line.body, entry);
    TailText(line.body, []);
  }

  lemma OperationText(operation: JournalText.Operation)
    ensures JournalText.OperationName(operation) == OperationWord(operation)
  {
  }
}
